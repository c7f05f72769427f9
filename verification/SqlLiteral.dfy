/** Binding values into SQL text: `escape` and `quote`, against a lexer of string literals. */
module SqlLiteral {
  import opened Options

  /** A value to bind. Numbers come with their `repr`, binary values with their hexadecimal text. */
  datatype Value =
    | Null
    | Bool(b: bool)
    | Numeric(repr: string)
    | Binary(hex: string)
    | List(items: seq<string>)
    | Str(s: string)

  /** `str.replace` for a pattern of one character. */
  function Replace(s: string, c: char, t: string): string {
    if s == [] then [] else (if s[0] == c then t else [s[0]]) + Replace(s[1..], c, t)
  }

  function EscapeText(s: string): string {
    Replace(Replace(Replace(Replace(s, '\\', "\\\\"), '\n', "\\n"), '\r', "\\r"), '\'', "\\'")
  }

  /** Everything but a string passes through. */
  function Escape(v: Value): Value {
    if v.Str? then Str(EscapeText(v.s)) else v
  }

  function Join(items: seq<string>, separator: string): string {
    if |items| == 0 then []
    else if |items| == 1 then items[0]
    else items[0] + separator + Join(items[1..], separator)
  }

  function Quote(v: Value): string {
    match v
    case List(items) => Join(items, ",")
    case Null => "NULL"
    case Bool(b) => if b then "TRUE" else "FALSE"
    case Numeric(repr) => repr
    case Binary(hex) => "X'" + hex + "'"
    case Str(s) => "'" + s + "'"
  }

  // ---------------------------------------------------------------------------
  // One replacement per character

  function EscapeChar(c: char): string {
    if c == '\\' then "\\\\"
    else if c == '\n' then "\\n"
    else if c == '\r' then "\\r"
    else if c == '\'' then "\\'"
    else [c]
  }

  function EscapeEach(s: string): string {
    if s == [] then [] else EscapeChar(s[0]) + EscapeEach(s[1..])
  }

  lemma {:induction false} ReplaceConcat(a: string, b: string, c: char, t: string)
    ensures Replace(a + b, c, t) == Replace(a, c, t) + Replace(b, c, t)
  {
    if a == [] {
      assert a + b == b;
    } else {
      assert (a + b)[1..] == a[1..] + b;
      ReplaceConcat(a[1..], b, c, t);
    }
  }

  lemma EscapeConcat(a: string, b: string)
    ensures EscapeText(a + b) == EscapeText(a) + EscapeText(b)
  {
    ReplaceConcat(a, b, '\\', "\\\\");
    var a1, b1 := Replace(a, '\\', "\\\\"), Replace(b, '\\', "\\\\");
    ReplaceConcat(a1, b1, '\n', "\\n");
    var a2, b2 := Replace(a1, '\n', "\\n"), Replace(b1, '\n', "\\n");
    ReplaceConcat(a2, b2, '\r', "\\r");
    ReplaceConcat(Replace(a2, '\r', "\\r"), Replace(b2, '\r', "\\r"), '\'', "\\'");
  }

  lemma ReplaceOne(x: char, c: char, t: string)
    ensures Replace([x], c, t) == if x == c then t else [x]
  {
    assert [x][1..] == [];
  }

  lemma ReplaceTwo(x: char, y: char, c: char, t: string)
    ensures Replace([x, y], c, t) == (if x == c then t else [x]) + (if y == c then t else [y])
  {
    assert [x, y][1..] == [y];
    ReplaceOne(y, c, t);
  }

  lemma EscapeOne(c: char)
    ensures EscapeText([c]) == EscapeChar(c)
  {
    ReplaceOne(c, '\\', "\\\\");
    ReplaceOne(c, '\n', "\\n");
    ReplaceOne(c, '\r', "\\r");
    ReplaceOne(c, '\'', "\\'");
    var e := EscapeChar(c);
    if |e| == 2 {
      assert e == [e[0], e[1]];
      ReplaceTwo(e[0], e[1], '\n', "\\n");
      ReplaceTwo(e[0], e[1], '\r', "\\r");
      ReplaceTwo(e[0], e[1], '\'', "\\'");
    }
  }

  /** The four replacements one after the other are one simultaneous replacement per character. */
  lemma {:induction false} EscapeIsSimultaneous(s: string)
    ensures EscapeText(s) == EscapeEach(s)
  {
    if s != [] {
      assert s == [s[0]] + s[1..];
      EscapeConcat([s[0]], s[1..]);
      EscapeOne(s[0]);
      EscapeIsSimultaneous(s[1..]);
    }
  }

  // ---------------------------------------------------------------------------
  // Reading the literal back

  function Unescape(c: char): char {
    if c == 'n' then '\n' else if c == 'r' then '\r' else c
  }

  function Prepend(prefix: string, r: Option<(string, string)>): Option<(string, string)> {
    if r.Some? then Some((prefix + r.value.0, r.value.1)) else None
  }

  /** The text after an opening quote: the literal's value and what follows it. With `doubling`, two
      quotes in a row stand for one. */
  function LexBody(s: string, doubling: bool): (r: Option<(string, string)>)
    ensures r.Some? ==> |r.value.1| < |s|
    decreases |s|
  {
    if s == [] then None
    else if s[0] == '\'' then
      if doubling && |s| >= 2 && s[1] == '\'' then Prepend("'", LexBody(s[2..], doubling)) else Some(([], s[1..]))
    else if s[0] == '\\' then
      if |s| < 2 then None else Prepend([Unescape(s[1])], LexBody(s[2..], doubling))
    else Prepend([s[0]], LexBody(s[1..], doubling))
  }

  function LexLiteral(s: string, doubling: bool): Option<(string, string)> {
    if s == [] || s[0] != '\'' then None else LexBody(s[1..], doubling)
  }

  lemma PrependTwice(a: string, b: string, r: Option<(string, string)>)
    ensures Prepend(a, Prepend(b, r)) == Prepend(a + b, r)
    ensures Prepend([], r) == r
  {
    if r.Some? {
      assert a + (b + r.value.0) == (a + b) + r.value.0;
      assert [] + r.value.0 == r.value.0;
    }
  }

  lemma LexOne(c: char, tail: string, doubling: bool)
    ensures LexBody(EscapeChar(c) + tail, doubling) == Prepend([c], LexBody(tail, doubling))
  {
    var e := EscapeChar(c);
    assert (e + tail)[|e|..] == tail;
  }

  lemma {:induction false} LexEscaped(s: string, rest: string, doubling: bool)
    ensures LexBody(EscapeEach(s) + rest, doubling) == Prepend(s, LexBody(rest, doubling))
    decreases |s|
  {
    PrependTwice([], [], LexBody(rest, doubling));
    if s == [] {
      assert EscapeEach(s) + rest == rest;
    } else {
      var tail := EscapeEach(s[1..]) + rest;
      assert EscapeEach(s) + rest == EscapeChar(s[0]) + tail;
      LexOne(s[0], tail, doubling);
      LexEscaped(s[1..], rest, doubling);
      PrependTwice([s[0]], s[1..], LexBody(rest, doubling));
      assert [s[0]] + s[1..] == s;
    }
  }

  /** A closing quote closes, unless the lexer pairs it with the next one. */
  lemma ClosingQuote(rest: string, doubling: bool)
    ensures var r := LexBody("'" + rest, doubling);
            if doubling && rest != [] && rest[0] == '\'' then r.None? || r.value.0 != [] else r == Some(([], rest))
  {
    assert ("'" + rest)[1..] == rest;
  }

  /** A quoted string is read back whole, whatever follows it, except that a lexer that takes two
      quotes for one needs something else than a quote to follow. */
  lemma LiteralRoundTrip(s: string, rest: string, doubling: bool)
    ensures LexLiteral(Quote(Escape(Str(s))) + rest, doubling) == Some((s, rest))
            <==> !(doubling && rest != [] && rest[0] == '\'')
  {
    EscapeIsSimultaneous(s);
    assert (Quote(Escape(Str(s))) + rest)[1..] == EscapeEach(s) + ("'" + rest);
    LexEscaped(s, "'" + rest, doubling);
    ClosingQuote(rest, doubling);
    var r := LexBody("'" + rest, doubling);
    assert r.Some? && r.value.0 != [] ==> |s + r.value.0| > |s|;
    assert s + [] == s;
  }

  // ---------------------------------------------------------------------------
  // Reading any value back

  /** The text between the quotes of a binary literal. */
  function BinaryText(text: string): Option<string> {
    if |text| >= 3 && text[0] == 'X' && text[1] == '\'' && text[|text| - 1] == '\'' && '\'' !in text[2..|text| - 1]
    then Some(text[2..|text| - 1])
    else None
  }

  /** A reader of literals that are not lists: a quoted string, a binary literal, a keyword, or else a number. */
  function ReadValue(text: string, doubling: bool): Option<Value> {
    if text == [] then None
    else if text[0] == '\'' then
      var s := LexLiteral(text, doubling);
      if s.Some? && s.value.1 == [] then Some(Str(s.value.0)) else None
    else if BinaryText(text).Some? then Some(Binary(BinaryText(text).value))
    else if text == "NULL" then Some(Null)
    else if text == "TRUE" then Some(Bool(true))
    else if text == "FALSE" then Some(Bool(false))
    else Some(Numeric(text))
  }

  /** The text of a number starts with a sign, a digit or the name of its type; that of a binary value
      has no quote in it. */
  predicate Printable(v: Value) {
    match v
    case Numeric(repr) =>
      repr != [] && repr[0] != '\'' && repr[0] != 'X' && repr[0] != 'N' && repr[0] != 'T' && repr[0] != 'F'
    case Binary(hex) => '\'' !in hex
    case List(_) => false
    case _ => true
  }

  lemma BinaryReadsBack(hex: string)
    requires '\'' !in hex
    ensures BinaryText("X'" + hex + "'") == Some(hex)
  {
    var text := "X'" + hex + "'";
    assert text[2..|text| - 1] == hex;
  }

  lemma KeywordReadsBack(b: bool, doubling: bool)
    ensures ReadValue(Quote(Bool(b)), doubling) == Some(Bool(b))
  {
    var text := Quote(Bool(b));
    assert text[0] == if b then 'T' else 'F';
    assert "NULL"[0] == 'N' && "TRUE"[0] == 'T';
    assert text != "NULL" && (!b ==> text != "TRUE");
  }

  /** Every value that is not a list is read back from its literal. */
  lemma ValueReadsBack(v: Value, doubling: bool)
    requires Printable(v)
    ensures ReadValue(Quote(Escape(v)), doubling) == Some(v)
  {
    match v
    case Str(s) =>
      LiteralRoundTrip(s, [], doubling);
      assert Quote(Escape(v)) + [] == Quote(Escape(v));
    case Binary(hex) => BinaryReadsBack(hex);
    case Null => assert "NULL"[0] == 'N';
    case Bool(b) => KeywordReadsBack(b, doubling);
    case Numeric(repr) => assert "TRUE"[0] == 'T' && "NULL"[0] == 'N' && "FALSE"[0] == 'F';
  }

  /** String literals with commas between them. */
  function ReadItems(text: string, doubling: bool): Option<seq<string>>
    decreases |text|
  {
    var first := LexLiteral(text, doubling);
    if first.None? then None
    else if first.value.1 == [] then Some([first.value.0])
    else if first.value.1[0] != ',' then None
    else
      var rest := ReadItems(first.value.1[1..], doubling);
      if rest.None? then None else Some([first.value.0] + rest.value)
  }

  function Literals(ss: seq<string>): seq<string> {
    seq(|ss|, i requires 0 <= i < |ss| => Quote(Escape(Str(ss[i]))))
  }

  lemma LiteralsFirst(ss: seq<string>)
    requires |ss| > 1
    ensures Quote(List(Literals(ss))) == Quote(Escape(Str(ss[0]))) + ("," + Quote(List(Literals(ss[1..]))))
  {
    assert Literals(ss)[1..] == Literals(ss[1..]);
    JoinFirst(Literals(ss));
  }

  lemma JoinFirst(items: seq<string>)
    requires |items| > 1
    ensures Join(items, ",") == items[0] + ("," + Join(items[1..], ","))
  {
    var rest := Join(items[1..], ",");
    assert items[0] + "," + rest == items[0] + ("," + rest);
  }

  lemma ReadItemsFirst(s: string, more: string, rest: seq<string>, doubling: bool)
    requires ReadItems(more, doubling) == Some(rest)
    ensures ReadItems(Quote(Escape(Str(s))) + ("," + more), doubling) == Some([s] + rest)
  {
    LiteralRoundTrip(s, "," + more, doubling);
    assert ("," + more)[1..] == more;
  }

  /** A list of quoted strings is read back item by item. */
  lemma {:induction false} ListReadsBack(ss: seq<string>, doubling: bool)
    requires ss != []
    ensures ReadItems(Quote(Escape(List(Literals(ss)))), doubling) == Some(ss)
    decreases |ss|
  {
    if |ss| == 1 {
      LiteralRoundTrip(ss[0], [], doubling);
      assert Quote(Escape(Str(ss[0]))) + [] == Quote(List(Literals(ss)));
      assert ss == [ss[0]];
    } else {
      ListReadsBack(ss[1..], doubling);
      LiteralsFirst(ss);
      ReadItemsFirst(ss[0], Quote(List(Literals(ss[1..]))), ss[1..], doubling);
      assert [ss[0]] + ss[1..] == ss;
    }
  }
}
