/** The string-aware splitter that cuts a JSON frame into its top-level objects. */
module JsonSplit {
  /** The scan's state, with the text read since the last object opened. */
  datatype State = State(depth: int, inString: bool, escaped: bool, text: string)

  const START := State(0, false, false, "")

  predicate Opens(st: State, c: char) { !st.escaped && !st.inString && c == '{' && st.depth == 0 }

  predicate Closes(st: State, c: char) { !st.escaped && !st.inString && c == '}' && st.depth == 1 }

  function Step(st: State, c: char): State {
    var text := if Opens(st, c) then [c] else st.text + [c];
    if st.escaped then st.(escaped := false, text := text)
    else if c == '\\' then st.(escaped := true, text := text)
    else if c == '"' then st.(inString := !st.inString, text := text)
    else if st.inString then st.(text := text)
    else if c == '{' then st.(depth := st.depth + 1, text := text)
    else if c == '}' then st.(depth := st.depth - 1, text := text)
    else st.(text := text)
  }

  function Emits(st: State, c: char): seq<string> {
    if Closes(st, c) then [st.text + [c]] else []
  }

  function Scan(st: State, s: string): seq<string>
    decreases |s|
  {
    if s == [] then [] else Emits(st, s[0]) + Scan(Step(st, s[0]), s[1..])
  }

  function End(st: State, s: string): State
    decreases |s|
  {
    if s == [] then st else End(Step(st, s[0]), s[1..])
  }

  function Objects(frame: string): seq<string> { Scan(START, frame) }

  // ----- The loop -----

  /** `for_each_object`, collecting what it passes to its callback. */
  method ForEachObject(frame: string) returns (objects: seq<string>)
    ensures objects == Objects(frame)
  {
    hide Scan, Step, Emits, Opens, Closes;
    objects := [];
    var depth, inString, escaped, start := 0, false, false, 0;
    ghost var st := START;
    for i := 0 to |frame|
      invariant start <= i && st == State(depth, inString, escaped, frame[start..i])
      invariant objects + Scan(st, frame[i..]) == Objects(frame)
    {
      var c := frame[i];
      ScanStep(st, frame[i..]);
      Onwards(frame, start, i);
      StepCases(st, c);
      Regroup(objects, Emits(st, c), Scan(Step(st, c), frame[i + 1..]));
      st := Step(st, c);
      if escaped {
        escaped := false;
      } else if c == '\\' {
        escaped := true;
      } else if c == '"' {
        inString := !inString;
      } else if inString {
      } else if c == '{' {
        depth := depth + 1;
        if depth - 1 == 0 { start := i; }
      } else if c == '}' {
        depth := depth - 1;
        if depth == 0 { objects := objects + [frame[start..start + (i - start + 1)]]; }
      }
    }
    ScanStep(st, frame[|frame|..]);
  }

  lemma Regroup(a: seq<string>, b: seq<string>, c: seq<string>)
    ensures a + (b + c) == a + b + c && a + [] == a
  {
  }

  lemma Onwards(frame: string, start: nat, i: nat)
    requires start <= i < |frame|
    ensures frame[i..][0] == frame[i] && frame[i..][1..] == frame[i + 1..]
    ensures frame[start..i] + [frame[i]] == frame[start..i + 1] && [frame[i]] == frame[i..i + 1]
  {
  }

  lemma ScanStep(st: State, s: string)
    ensures Scan(st, s) == if s == [] then [] else Emits(st, s[0]) + Scan(Step(st, s[0]), s[1..])
  {
  }

  /** One character, case by case as the loop has them. */
  lemma StepCases(st: State, c: char)
    ensures var next, more, plain := Step(st, c), st.text + [c], !st.escaped && !st.inString;
            && (st.escaped ==> next == st.(escaped := false, text := more) && Emits(st, c) == [])
            && (!st.escaped && c == '\\' ==> next == st.(escaped := true, text := more) && Emits(st, c) == [])
            && (!st.escaped && c == '"' ==> next == st.(inString := !st.inString, text := more) && Emits(st, c) == [])
            && (!st.escaped && c != '\\' && c != '"' && st.inString ==> next == st.(text := more) && Emits(st, c) == [])
            && (plain && c == '{' ==>
                  next == st.(depth := st.depth + 1, text := if st.depth == 0 then [c] else more) && Emits(st, c) == [])
            && (plain && c == '}' ==>
                  next == st.(depth := st.depth - 1, text := more) && Emits(st, c) == if st.depth == 1 then [more]
                    else [])
            && (plain && c != '\\' && c != '"' && c != '{' && c != '}' ==>
                  next == st.(text := more) && Emits(st, c) == [])
  {
  }

  lemma StepIs(st: State, c: char)
    ensures Step(st, c).text == if Opens(st, c) then [c] else st.text + [c]
    ensures Step(st, c).escaped <==> !st.escaped && c == '\\'
    ensures Step(st, c).inString <==> st.inString != (!st.escaped && c == '"')
    ensures Step(st, c).depth == if st.escaped || st.inString then st.depth
                                 else if c == '{' then st.depth + 1 else if c == '}' then st.depth - 1 else st.depth
  {
  }

  lemma {:induction false} ScanAppend(st: State, a: string, b: string)
    ensures Scan(st, a + b) == Scan(st, a) + Scan(End(st, a), b)
    ensures End(st, a + b) == End(End(st, a), b)
    decreases |a|
  {
    if a == [] {
      assert a + b == b;
    } else {
      assert (a + b)[0] == a[0] && (a + b)[1..] == a[1..] + b;
      ScanAppend(Step(st, a[0]), a[1..], b);
    }
  }

  lemma ScanOne(st: State, c: char)
    ensures Scan(st, [c]) == Emits(st, c) && End(st, [c]) == Step(st, c)
  {
    assert Scan(Step(st, c), [c][1..]) == [];
  }

  // ----- Objects by their grammar -----

  /** One character of a string literal, as written. */
  datatype StringChar = Ordinary(c: char) | Escape(c: char)

  /** What stands between an object's braces: plain characters, string literals and nested objects. */
  datatype Pieces =
    | Nil
    | Plain(c: char, rest: Pieces)
    | Literal(body: seq<StringChar>, rest: Pieces)
    | Nested(inner: Pieces, rest: Pieces)

  predicate Neutral(c: char) { c != '{' && c != '}' && c != '"' && c != '\\' }

  predicate WellFormed(p: Pieces) {
    match p
    case Nil => true
    case Plain(c, rest) => Neutral(c) && WellFormed(rest)
    case Literal(body, rest) => WellFormed(rest) && forall x :: x in body && x.Ordinary? ==> x.c != '"' && x.c != '\\'
    case Nested(inner, rest) => WellFormed(inner) && WellFormed(rest)
  }

  function PrintChars(body: seq<StringChar>): string {
    if body == [] then ""
    else (if body[0].Ordinary? then [body[0].c] else ['\\', body[0].c]) + PrintChars(body[1..])
  }

  function PrintPieces(p: Pieces): string {
    match p
    case Nil => ""
    case Plain(c, rest) => [c] + PrintPieces(rest)
    case Literal(body, rest) => ("\"" + PrintChars(body) + "\"") + PrintPieces(rest)
    case Nested(inner, rest) => ("{" + PrintPieces(inner) + "}") + PrintPieces(rest)
  }

  /** An object, that is its pieces between braces. */
  function PrintObject(p: Pieces): string { "{" + PrintPieces(p) + "}" }

  /** Objects joined by separators, one before the first and one after the last. */
  function Join(first: string, items: seq<(Pieces, string)>): string
    decreases |items|
  {
    if items == [] then first else first + PrintObject(items[0].0) + Join(items[0].1, items[1..])
  }

  predicate Separator(s: string) { forall i :: 0 <= i < |s| ==> Neutral(s[i]) }

  // ----- Splitting undoes joining -----

  /** Reading s in state st emits nothing and leaves all but the text as it was. */
  predicate Quiet(st: State, s: string) { Scan(st, s) == [] && End(st, s) == st.(text := st.text + s) }

  lemma QuietAppend(st: State, a: string, b: string)
    requires Quiet(st, a) && Quiet(st.(text := st.text + a), b)
    ensures Quiet(st, a + b)
  {
    hide Scan, End;
    ScanAppend(st, a, b);
    assert st.text + a + b == st.text + (a + b);
  }

  lemma QuietNothing(st: State)
    ensures Quiet(st, "")
  {
    assert st.text + "" == st.text;
  }

  lemma QuietOne(st: State, c: char)
    requires !st.escaped
    requires if st.inString then c != '"' && c != '\\' else Neutral(c)
    ensures Quiet(st, [c])
  {
    ScanOne(st, c);
  }

  lemma QuietEscape(st: State, c: char)
    requires !st.escaped && st.inString
    ensures Quiet(st, ['\\', c])
  {
    ScanOne(st, '\\');
    ScanOne(Step(st, '\\'), c);
    ScanAppend(st, ['\\'], [c]);
    assert ['\\'] + [c] == ['\\', c] && st.text + ['\\'] + [c] == st.text + ['\\', c];
  }

  lemma {:induction false} QuietChars(st: State, body: seq<StringChar>)
    requires !st.escaped && st.inString
    requires forall x :: x in body && x.Ordinary? ==> x.c != '"' && x.c != '\\'
    ensures Quiet(st, PrintChars(body))
    decreases |body|
  {
    hide Quiet;
    if body == [] {
      QuietNothing(st);
    } else {
      var here := if body[0].Ordinary? then [body[0].c] else ['\\', body[0].c];
      if body[0].Ordinary? { QuietOne(st, body[0].c); } else { QuietEscape(st, body[0].c); }
      QuietChars(st.(text := st.text + here), body[1..]);
      QuietAppend(st, here, PrintChars(body[1..]));
    }
  }

  lemma QuietLiteral(st: State, body: seq<StringChar>)
    requires !st.escaped && !st.inString
    requires forall x :: x in body && x.Ordinary? ==> x.c != '"' && x.c != '\\'
    ensures Quiet(st, "\"" + PrintChars(body) + "\"")
  {
    hide Scan, End, PrintChars;
    var middle := PrintChars(body);
    Bracketed(st, '"', middle, '"');
    QuietChars(Step(st, '"'), body);
    assert st.text + ['"'] + middle + ['"'] == st.text + ("\"" + middle + "\"");
  }

  /** Reading an opening character, a quiet middle and a closing character. */
  lemma Bracketed(st: State, open: char, middle: string, close: char)
    ensures Quiet(Step(st, open), middle) ==>
              var inside := Step(st, open).(text := Step(st, open).text + middle);
              && Scan(st, [open] + middle + [close]) == Emits(st, open) + Emits(inside, close)
              && End(st, [open] + middle + [close]) == Step(inside, close)
  {
    hide Scan, End, Step, Emits;
    ScanOne(st, open);
    ScanAppend(st, [open], middle);
    ScanAppend(st, [open] + middle, [close]);
    ScanOne(End(st, [open] + middle), close);
  }

  /** Inside an object everything the grammar allows is quiet. */
  lemma {:induction false} QuietPieces(st: State, p: Pieces)
    requires !st.escaped && !st.inString && st.depth >= 1 && WellFormed(p)
    ensures Quiet(st, PrintPieces(p))
    decreases p
  {
    hide Quiet;
    match p
    case Nil =>
      QuietNothing(st);
    case Plain(c, rest) =>
      QuietOne(st, c);
      QuietPieces(st.(text := st.text + [c]), rest);
      QuietAppend(st, [c], PrintPieces(rest));
    case Literal(body, rest) =>
      var here := "\"" + PrintChars(body) + "\"";
      QuietLiteral(st, body);
      QuietPieces(st.(text := st.text + here), rest);
      QuietAppend(st, here, PrintPieces(rest));
    case Nested(inner, rest) =>
      var here := "{" + PrintPieces(inner) + "}";
      QuietPieces(Step(st, '{'), inner);
      QuietNested(st, inner);
      QuietPieces(st.(text := st.text + here), rest);
      QuietAppend(st, here, PrintPieces(rest));
  }

  lemma QuietNested(st: State, inner: Pieces)
    requires !st.escaped && !st.inString && st.depth >= 1
    requires Quiet(Step(st, '{'), PrintPieces(inner))
    ensures Quiet(st, "{" + PrintPieces(inner) + "}")
  {
    hide Scan, End, PrintPieces;
    var middle := PrintPieces(inner);
    Bracketed(st, '{', middle, '}');
    assert st.text + ['{'] + middle + ['}'] == st.text + ("{" + middle + "}");
  }

  lemma {:induction false} QuietSeparator(st: State, s: string)
    requires !st.escaped && !st.inString && Separator(s)
    ensures Quiet(st, s)
    decreases |s|
  {
    hide Quiet;
    if s == [] {
      QuietNothing(st);
    } else {
      QuietOne(st, s[0]);
      QuietSeparator(st.(text := st.text + [s[0]]), s[1..]);
      QuietAppend(st, [s[0]], s[1..]);
      assert [s[0]] + s[1..] == s;
    }
  }

  /** Between objects, reading one object emits exactly its text. */
  lemma ObjectEmitted(st: State, p: Pieces)
    requires !st.escaped && !st.inString && st.depth == 0 && WellFormed(p)
    ensures Scan(st, PrintObject(p)) == [PrintObject(p)]
    ensures End(st, PrintObject(p)) == st.(text := PrintObject(p))
  {
    hide Scan, End, PrintPieces;
    Bracketed(st, '{', PrintPieces(p), '}');
    QuietPieces(Step(st, '{'), p);
  }

  function Texts(items: seq<(Pieces, string)>): seq<string> {
    if items == [] then [] else [PrintObject(items[0].0)] + Texts(items[1..])
  }

  lemma {:induction false} ScanJoin(st: State, first: string, items: seq<(Pieces, string)>)
    requires !st.escaped && !st.inString && st.depth == 0 && Separator(first)
    requires forall i :: 0 <= i < |items| ==> WellFormed(items[i].0) && Separator(items[i].1)
    ensures Scan(st, Join(first, items)) == Texts(items)
    decreases |items|
  {
    QuietSeparator(st, first);
    if items != [] {
      var (p, next) := items[0];
      var between := st.(text := st.text + first);
      ObjectEmitted(between, p);
      ScanJoin(End(between, PrintObject(p)), next, items[1..]);
      hide Scan, End, Step, PrintObject;
      ScanAppend(st, first, PrintObject(p));
      ScanAppend(st, first + PrintObject(p), Join(next, items[1..]));
    }
  }

  /** Splitting a frame joined from objects gives back those objects, in order. */
  lemma SplitJoined(first: string, items: seq<(Pieces, string)>)
    requires Separator(first) && forall i :: 0 <= i < |items| ==> WellFormed(items[i].0) && Separator(items[i].1)
    ensures Objects(Join(first, items)) == Texts(items)
  {
    ScanJoin(START, first, items);
  }

  /** A frame worked out: a brace inside a string, and a nested object. */
  lemma OneFrame()
    ensures Objects("[{\"}\"},{{}}]") == ["{\"}\"}", "{{}}"]
  {
    var p, q := Literal([Ordinary('}')], Nil), Nested(Nil, Nil);
    TwoObjects();
    hide PrintObject, Scan, WellFormed;
    var items := [(p, ","), (q, "]")];
    assert items[1..] == [(q, "]")] && [(q, "]")][1..] == [];
    assert Join("]", []) == "]";
    assert Join(",", [(q, "]")]) == ",{{}}]";
    assert Join("[", items) == "[{\"}\"},{{}}]";
    assert Texts([]) == [] && Texts([(q, "]")]) == ["{{}}"] && Texts(items) == ["{\"}\"}", "{{}}"];
    hide Join, Texts;
    SplitJoined("[", items);
  }

  lemma TwoObjects()
    ensures PrintObject(Literal([Ordinary('}')], Nil)) == "{\"}\"}" && WellFormed(Literal([Ordinary('}')], Nil))
    ensures PrintObject(Nested(Nil, Nil)) == "{{}}" && WellFormed(Nested(Nil, Nil))
  {
    assert [Ordinary('}')][1..] == [];
    assert PrintChars([Ordinary('}')]) == "}";
  }

  // ----- Arbitrary frames -----

  /** An open object's text, read on its own, leads to the same state. */
  predicate SelfContained(st: State) { st.depth >= 1 ==> Scan(START, st.text) == [] && End(START, st.text) == st }

  lemma StepSelfContained(st: State, c: char)
    requires SelfContained(st)
    ensures SelfContained(Step(st, c))
    ensures Closes(st, c) ==> Objects(st.text + [c]) == [st.text + [c]]
  {
    hide Scan, End, Step;
    StepIs(st, c);
    if Opens(st, c) {
      ScanOne(START, c);
      StepIs(START, c);
    } else if st.depth >= 1 {
      ScanAppend(START, st.text, [c]);
      ScanOne(st, c);
    }
  }

  lemma {:induction false} EmittedAlone(st: State, s: string, k: nat)
    requires SelfContained(st) && k < |Scan(st, s)|
    ensures Objects(Scan(st, s)[k]) == [Scan(st, s)[k]]
    decreases |s|
  {
    hide SelfContained, Objects;
    StepSelfContained(st, s[0]);
    var now := Emits(st, s[0]);
    if k >= |now| { EmittedAlone(Step(st, s[0]), s[1..], k - |now|); }
  }

  /** Whatever the frame, each text handed on is exactly one whole object by itself. */
  lemma EveryPieceIsOneObject(frame: string, k: nat)
    requires k < |Objects(frame)|
    ensures Objects(Objects(frame)[k]) == [Objects(frame)[k]]
  {
    EmittedAlone(START, frame, k);
  }
}
