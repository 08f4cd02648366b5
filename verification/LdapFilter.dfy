/**
 LDAP search filters: a syntax tree, the string form of RFC 2254 section 4 with the
 empty conjunction and disjunction of RFC 4526 section 2, a parser for it, and what a
 filter means for a directory entry.
 */
module LdapFilter {
  import opened Basics

  /**
   `Test` compares an attribute with the pieces of a value that asterisks separate: one
   piece asks for equality, two empty ones for presence, `[p, ""]` for the prefix `p`.
   */
  datatype Filter =
    | And(all: seq<Filter>)
    | Or(any: seq<Filter>)
    | Not(filter: Filter)
    | Test(attribute: string, pieces: seq<string>)
    | AtLeast(attribute: string, value: string)

  // ---- meaning -------------------------------------------------------------

  /** What the simple tests say of one directory entry. */
  type Entry = Filter -> bool

  predicate Holds(f: Filter, entry: Entry) {
    match f
    case And(all) => forall g <- all :: Holds(g, entry)
    case Or(any) => exists g <- any :: Holds(g, entry)
    case Not(g) => !Holds(g, entry)
    case Test(_, _) => entry(f)
    case AtLeast(_, _) => entry(f)
  }

  // ---- escaping ------------------------------------------------------------

  predicate Special(c: char) {
    c == '*' || c == '\\' || c == '(' || c == ')' || c == '\0'
  }

  predicate Plain(s: string) {
    forall c <- s :: !Special(c)
  }

  function Hex(c: char): string
    requires Special(c)
  {
    match c
    case '*' => "2a"
    case '\\' => "5c"
    case '(' => "28"
    case ')' => "29"
    case _ => "00"
  }

  function Escaped(c: char): (r: string)
    ensures r != []
  {
    if Special(c) then "\\" + Hex(c) else [c]
  }

  function Escape(s: string): string {
    if s == [] then "" else Escaped(s[0]) + Escape(s[1..])
  }

  function HexDigit(c: char): Option<nat> {
    if '0' <= c <= '9' then Some(c as int - '0' as int)
    else if 'a' <= c <= 'f' then Some(c as int - 'a' as int + 10)
    else if 'A' <= c <= 'F' then Some(c as int - 'A' as int + 10)
    else None
  }

  /** The character two hexadecimal digits stand for. */
  function Decoded(s: string): (r: Option<char>)
    requires |s| >= 2
  {
    var high, low := HexDigit(s[0]), HexDigit(s[1]);
    if high.Some? && low.Some? && high.value < 16 && low.value < 16
    then Some((16 * high.value + low.value) as char) else None
  }

  // ---- printing ------------------------------------------------------------

  function PrintPieces(pieces: seq<string>): string {
    if pieces == [] then ""
    else if |pieces| == 1 then Escape(pieces[0])
    else Escape(pieces[0]) + "*" + PrintPieces(pieces[1..])
  }

  function Print(f: Filter): (s: string)
    ensures s != [] && s[0] == '('
    decreases f
  {
    match f
    case And(all) => "(&" + PrintAll(all) + ")"
    case Or(any) => "(|" + PrintAll(any) + ")"
    case Not(g) => "(!" + Print(g) + ")"
    case Test(attribute, pieces) => "(" + attribute + "=" + PrintPieces(pieces) + ")"
    case AtLeast(attribute, value) => "(" + attribute + ">=" + Escape(value) + ")"
  }

  function PrintAll(fs: seq<Filter>): string
    decreases fs
  {
    if fs == [] then "" else Print(fs[0]) + PrintAll(fs[1..])
  }

  // ---- parsing -------------------------------------------------------------

  predicate NameChar(c: char) {
    'a' <= c <= 'z' || 'A' <= c <= 'Z' || '0' <= c <= '9' || c == '-' || c == ';' || c == '.'
  }

  predicate Name(s: string) {
    s != [] && forall i :: 0 <= i < |s| ==> NameChar(s[i])
  }

  datatype Parsed<T> = Fail | Read(value: T, rest: string)

  function ReadName(s: string): (r: Parsed<string>)
    ensures r.Read? ==> |r.rest| <= |s|
  {
    if s == [] || !NameChar(s[0]) then Read("", s)
    else
      match ReadName(s[1..])
      case Fail => Fail
      case Read(name, rest) => Read([s[0]] + name, rest)
  }

  /** A piece of a value, up to the asterisk or parenthesis that ends it. */
  function ReadPiece(s: string): (r: Parsed<string>)
    ensures r.Read? ==> |r.rest| <= |s| && r.rest != [] && (r.rest[0] == '*' || r.rest[0] == ')')
    decreases |s|
  {
    if s == [] || s[0] == '(' || s[0] == '\0' then Fail
    else if s[0] == '*' || s[0] == ')' then Read("", s)
    else
      var c := if s[0] != '\\' then Some(s[0]) else if |s| < 3 then None else Decoded(s[1..]);
      if c.None? then Fail
      else
        match ReadPiece(if s[0] == '\\' then s[3..] else s[1..])
        case Fail => Fail
        case Read(piece, rest) => Read([c.value] + piece, rest)
  }

  function ReadPieces(s: string): (r: Parsed<seq<string>>)
    ensures r.Read? ==> |r.rest| <= |s| && r.rest != [] && r.rest[0] == ')' && r.value != []
    decreases |s|
  {
    match ReadPiece(s)
    case Fail => Fail
    case Read(piece, rest) =>
      if rest[0] == ')' then Read([piece], rest)
      else
        match ReadPieces(rest[1..])
        case Fail => Fail
        case Read(more, end) => Read([piece] + more, end)
  }

  function ReadTest(s: string): (r: Parsed<Filter>)
    ensures r.Read? ==> |r.rest| <= |s|
  {
    match ReadName(s)
    case Fail => Fail
    case Read(name, rest) =>
      if name == [] then Fail
      else if |rest| >= 1 && rest[0] == '=' then
        match ReadPieces(rest[1..])
        case Fail => Fail
        case Read(pieces, end) => Read(Test(name, pieces), end[1..])
      else if |rest| >= 2 && rest[0] == '>' && rest[1] == '=' then
        match ReadPiece(rest[2..])
        case Fail => Fail
        case Read(value, end) => if end[0] == ')' then Read(AtLeast(name, value), end[1..]) else Fail
      else Fail
  }

  function Closed<T>(r: Parsed<T>): (c: Parsed<T>)
    ensures c.Read? ==> r.Read? && |c.rest| < |r.rest|
  {
    if r.Read? && r.rest != [] && r.rest[0] == ')' then Read(r.value, r.rest[1..]) else Fail
  }

  function Parse(s: string): (r: Parsed<Filter>)
    ensures r.Read? ==> |r.rest| < |s|
    decreases |s|, 0
  {
    if |s| < 2 || s[0] != '(' then Fail
    else if s[1] == '&' then
      match Closed(ParseAll(s[2..]))
      case Fail => Fail
      case Read(all, rest) => Read(And(all), rest)
    else if s[1] == '|' then
      match Closed(ParseAll(s[2..]))
      case Fail => Fail
      case Read(any, rest) => Read(Or(any), rest)
    else if s[1] == '!' then
      match Closed(Parse(s[2..]))
      case Fail => Fail
      case Read(f, rest) => Read(Not(f), rest)
    else ReadTest(s[1..])
  }

  function ParseAll(s: string): (r: Parsed<seq<Filter>>)
    ensures r.Read? ==> |r.rest| <= |s|
    decreases |s|, 1
  {
    if s == [] || s[0] != '(' then Read([], s)
    else
      match Parse(s)
      case Fail => Fail
      case Read(f, rest) =>
        match ParseAll(rest)
        case Fail => Fail
        case Read(fs, end) => Read([f] + fs, end)
  }

  // ---- printing and parsing ------------------------------------------------

  /** Attribute names are names and a test has at least one piece. */
  predicate WellFormed(f: Filter)
    decreases f
  {
    match f
    case And(all) => forall g <- all :: WellFormed(g)
    case Or(any) => forall g <- any :: WellFormed(g)
    case Not(g) => WellFormed(g)
    case Test(attribute, pieces) => Name(attribute) && pieces != []
    case AtLeast(attribute, _) => Name(attribute)
  }

  lemma {:induction false} ReadNameBack(name: string, rest: string)
    requires (forall c <- name :: NameChar(c)) && (rest == [] || !NameChar(rest[0]))
    ensures ReadName(name + rest) == Read(name, rest)
  {
    if name == [] {
      assert name + rest == rest;
    } else {
      ReadNameBack(name[1..], rest);
      assert (name + rest)[0] == name[0] && (name + rest)[1..] == name[1..] + rest;
      assert name == [name[0]] + name[1..];
    }
  }

  /** Escaped text holds no special character but its own backslashes, and unescapes to the original. */
  lemma {:induction false} ReadPieceBack(text: string, rest: string)
    requires rest != [] && (rest[0] == '*' || rest[0] == ')')
    ensures ReadPiece(Escape(text) + rest) == Read(text, rest)
  {
    if text == [] {
      assert Escape(text) + rest == rest;
    } else {
      EscapeHead(text, rest);
      hide ReadPiece, Escaped, Escape;
      ReadPieceBack(text[1..], rest);
      EscapedBack(text[0], Escape(text[1..]) + rest);
      assert text == [text[0]] + text[1..];
    }
  }

  lemma EscapeHead(text: string, rest: string)
    requires text != []
    ensures Escape(text) + rest == Escaped(text[0]) + (Escape(text[1..]) + rest)
  {
    hide Escaped;
  }

  lemma EscapedBack(c: char, more: string)
    requires ReadPiece(more).Read?
    ensures ReadPiece(Escaped(c) + more) == Read([c] + ReadPiece(more).value, ReadPiece(more).rest)
  {
    var s := Escaped(c) + more;
    if Special(c) {
      assert s[1] == Hex(c)[0] && s[2] == Hex(c)[1] && s[3..] == more;
      assert Decoded(s[1..]) == Some(c);
    } else {
      assert s[1..] == more;
    }
  }

  lemma {:induction false} ReadPiecesBack(pieces: seq<string>, rest: string)
    requires pieces != [] && rest != [] && rest[0] == ')'
    ensures ReadPieces(PrintPieces(pieces) + rest) == Read(pieces, rest)
  {
    hide ReadPiece, ReadPieces, Escape, PrintPieces;
    PiecesPrinted(pieces);
    if |pieces| == 1 {
      ReadPieceBack(pieces[0], rest);
      LastPiece(Escape(pieces[0]) + rest, pieces[0], rest);
      assert pieces == [pieces[0]];
    } else {
      var later := PrintPieces(pieces[1..]);
      ReadPiecesBack(pieces[1..], rest);
      ReadPieceBack(pieces[0], "*" + (later + rest));
      Regrouped(Escape(pieces[0]), later, rest);
      PiecesStep(PrintPieces(pieces) + rest, pieces[0], later + rest);
      assert pieces == [pieces[0]] + pieces[1..];
    }
  }

  lemma PiecesPrinted(pieces: seq<string>)
    requires pieces != []
    ensures PrintPieces(pieces) ==
            if |pieces| == 1 then Escape(pieces[0]) else Escape(pieces[0]) + "*" + PrintPieces(pieces[1..])
  {
  }

  lemma Regrouped(a: string, b: string, c: string)
    ensures a + "*" + b + c == a + ("*" + (b + c))
  {
  }

  lemma LastPiece(s: string, piece: string, rest: string)
    requires rest != [] && rest[0] == ')' && ReadPiece(s) == Read(piece, rest)
    ensures ReadPieces(s) == Read([piece], rest)
  {
    hide ReadPiece;
  }

  lemma PiecesStep(s: string, piece: string, more: string)
    requires ReadPiece(s) == Read(piece, "*" + more) && ReadPieces(more).Read?
    ensures ReadPieces(s) == Read([piece] + ReadPieces(more).value, ReadPieces(more).rest)
  {
    hide ReadPiece;
    assert ("*" + more)[1..] == more;
  }

  lemma ReadTestBack(name: string, pieces: seq<string>, rest: string)
    requires Name(name) && pieces != []
    ensures ReadTest(name + "=" + PrintPieces(pieces) + ")" + rest) == Read(Test(name, pieces), rest)
  {
    hide ReadPieces, ReadPiece, ReadName, PrintPieces;
    var tail := PrintPieces(pieces) + (")" + rest);
    assert name + "=" + PrintPieces(pieces) + ")" + rest == name + ("=" + tail);
    ReadNameBack(name, "=" + tail);
    assert ("=" + tail)[1..] == tail && (")" + rest)[1..] == rest;
    ReadPiecesBack(pieces, ")" + rest);
  }

  lemma ReadAtLeastBack(name: string, value: string, rest: string)
    requires Name(name)
    ensures ReadTest(name + ">=" + Escape(value) + ")" + rest) == Read(AtLeast(name, value), rest)
  {
    hide ReadPieces, ReadPiece, ReadName, Escape;
    var tail := Escape(value) + (")" + rest);
    assert name + ">=" + Escape(value) + ")" + rest == name + (">=" + tail);
    ReadNameBack(name, ">=" + tail);
    assert (">=" + tail)[2..] == tail && (")" + rest)[1..] == rest;
    ReadPieceBack(value, ")" + rest);
  }

  /** A bracketed operator over a list that reads back. */
  lemma ParseList(op: char, body: string, fs: seq<Filter>, rest: string)
    requires (op == '&' || op == '|') && ParseAll(body + (")" + rest)) == Read(fs, ")" + rest)
    ensures Parse("(" + [op] + body + ")" + rest) == Read(if op == '&' then And(fs) else Or(fs), rest)
  {
    hide ParseAll, ReadTest;
    var s := "(" + [op] + body + ")" + rest;
    assert s[0] == '(' && s[1] == op && s[2..] == body + (")" + rest);
    assert (")" + rest)[1..] == rest;
  }

  lemma ParseNot(body: string, f: Filter, rest: string)
    requires Parse(body + (")" + rest)) == Read(f, ")" + rest)
    ensures Parse("(!" + body + ")" + rest) == Read(Not(f), rest)
  {
    hide ParseAll, ReadTest;
    var s := "(!" + body + ")" + rest;
    assert s[0] == '(' && s[1] == '!' && s[2..] == body + (")" + rest);
    assert (")" + rest)[1..] == rest;
  }

  lemma ParseTest(body: string, first: char, f: Filter, rest: string)
    requires body != [] && body[0] == first && NameChar(first) && ReadTest(body + ")" + rest) == Read(f, rest)
    ensures Parse("(" + body + ")" + rest) == Read(f, rest)
  {
    hide ParseAll, ReadTest;
    var s := "(" + body + ")" + rest;
    assert s[1] == first && s[1..] == body + ")" + rest;
  }

  /** Parsing what was printed gives the filter back, and leaves what follows it. */
  lemma {:induction false} ParsePrint(f: Filter, rest: string)
    requires WellFormed(f)
    ensures Parse(Print(f) + rest) == Read(f, rest)
    decreases f
  {
    hide Parse, ReadTest, ParseAll, PrintPieces, Escape, PrintAll, Print;
    match f
    case And(all) =>
      ParsePrintAll(all, ")" + rest);
      ParsePrintList(f, all, rest);
    case Or(any) =>
      ParsePrintAll(any, ")" + rest);
      ParsePrintList(f, any, rest);
    case Not(g) =>
      ParsePrint(g, ")" + rest);
      ParsePrintNot(g, rest);
    case _ => ParsePrintTest(f, rest);
  }

  lemma ParsePrintList(f: Filter, fs: seq<Filter>, rest: string)
    requires (f == And(fs) || f == Or(fs)) && ParseAll(PrintAll(fs) + (")" + rest)) == Read(fs, ")" + rest)
    ensures Parse(Print(f) + rest) == Read(f, rest)
  {
    hide Parse, ParseAll, PrintAll;
    var op := if f.And? then '&' else '|';
    ParseList(op, PrintAll(fs), fs, rest);
    assert Print(f) == "(" + [op] + PrintAll(fs) + ")";
  }

  lemma ParsePrintNot(g: Filter, rest: string)
    requires Parse(Print(g) + (")" + rest)) == Read(g, ")" + rest)
    ensures Parse(Print(Not(g)) + rest) == Read(Not(g), rest)
  {
    hide Parse;
    ParseNot(Print(g), g, rest);
  }

  lemma ParsePrintTest(f: Filter, rest: string)
    requires WellFormed(f) && (f.Test? || f.AtLeast?)
    ensures Parse(Print(f) + rest) == Read(f, rest)
  {
    hide Parse, ReadTest, PrintPieces, Escape;
    var name := f.attribute;
    var body := if f.Test? then name + "=" + PrintPieces(f.pieces) else name + ">=" + Escape(f.value);
    if f.Test? { ReadTestBack(name, f.pieces, rest); } else { ReadAtLeastBack(name, f.value, rest); }
    ParseTest(body, name[0], f, rest);
    assert Print(f) == "(" + body + ")";
  }

  lemma {:induction false} ParsePrintAll(fs: seq<Filter>, rest: string)
    requires (forall g <- fs :: WellFormed(g)) && rest != [] && rest[0] == ')'
    ensures ParseAll(PrintAll(fs) + rest) == Read(fs, rest)
    decreases fs
  {
    hide Parse, WellFormed;
    if fs == [] {
      assert PrintAll(fs) + rest == rest;
    } else {
      ParsePrintAll(fs[1..], rest);
      ParsePrint(fs[0], PrintAll(fs[1..]) + rest);
      assert PrintAll(fs) + rest == Print(fs[0]) + (PrintAll(fs[1..]) + rest);
      assert fs == [fs[0]] + fs[1..];
    }
  }

  // ---- unescaped text ------------------------------------------------------

  lemma {:induction false} PlainEscape(s: string)
    requires Plain(s)
    ensures Escape(s) == s
  {
    if s != [] {
      PlainEscape(s[1..]);
      assert s == [s[0]] + s[1..];
    }
  }

  /** Reading a piece stops at the first asterisk or parenthesis, and only escapes make it shorter. */
  lemma {:induction false} PieceConsumes(s: string)
    requires ReadPiece(s).Read?
    ensures var piece, n := ReadPiece(s).value, |s| - |ReadPiece(s).rest|;
            && |piece| <= n <= |s| && ReadPiece(s).rest == s[n..]
            && (forall i :: 0 <= i < n ==> s[i] != '*' && s[i] != '(' && s[i] != ')' && s[i] != '\0')
            && (|piece| == n ==> piece == s[..n] && Plain(piece))
    decreases |s|
  {
    if s[0] != '*' && s[0] != ')' {
      var t := s[if s[0] == '\\' then 3 else 1..];
      PieceStep(s);
      hide ReadPiece, Plain;
      PieceConsumes(t);
      ConsumedMore(s, t, |t| - |ReadPiece(t).rest|);
      var piece, n := ReadPiece(t).value, |t| - |ReadPiece(t).rest|;
      if s[0] != '\\' && |piece| == n { PlainPrepended(s[0], piece); }
    }
  }

  lemma PlainPrepended(c: char, s: string)
    requires Plain(s) && !Special(c)
    ensures Plain([c] + s)
  {
  }

  lemma PieceStep(s: string)
    requires ReadPiece(s).Read? && s[0] != '*' && s[0] != ')'
    ensures s[0] != '(' && s[0] != '\0'
    ensures var step := if s[0] == '\\' then 3 else 1;
            && step <= |s| && ReadPiece(s[step..]).Read?
            && ReadPiece(s).rest == ReadPiece(s[step..]).rest
            && |ReadPiece(s).value| == 1 + |ReadPiece(s[step..]).value|
            && (step == 1 ==> ReadPiece(s).value == [s[0]] + ReadPiece(s[step..]).value)
            && (forall i :: 0 < i < step ==> HexDigit(s[i]).Some?)
  {
  }

  /** Reading on from after a character or an escape. */
  lemma ConsumedMore(s: string, t: string, n: nat)
    requires s != [] && s[0] != '*' && s[0] != '(' && s[0] != ')' && s[0] != '\0'
    requires var step := if s[0] == '\\' then 3 else 1;
             step <= |s| && t == s[step..] && forall i :: 0 < i < step ==> HexDigit(s[i]).Some?
    requires n <= |t| && forall i :: 0 <= i < n ==> t[i] != '*' && t[i] != '(' && t[i] != ')' && t[i] != '\0'
    ensures var m := n + |s| - |t|;
            && t[n..] == s[m..] && (s[0] != '\\' ==> s[..m] == [s[0]] + t[..n])
            && forall i :: 0 <= i < m ==> s[i] != '*' && s[i] != '(' && s[i] != ')' && s[i] != '\0'
  {
    var step := if s[0] == '\\' then 3 else 1;
    forall i | 0 <= i < step + n
      ensures s[i] != '*' && s[i] != '(' && s[i] != ')' && s[i] != '\0'
    {
      if i >= step { assert s[i] == t[i - step]; }
    }
  }

  /** Unescaped text reads back as itself exactly when it has no special character. */
  lemma RawPieceIff(text: string, rest: string)
    requires rest != [] && (rest[0] == '*' || rest[0] == ')')
    ensures (ReadPiece(text + rest).Read? && ReadPiece(text + rest).value == text) <==> Plain(text)
    ensures Plain(text) ==> ReadPiece(text + rest) == Read(text, rest)
  {
    var s := text + rest;
    if Plain(text) {
      PlainEscape(text);
      ReadPieceBack(text, rest);
    }
    if ReadPiece(s).Read? && ReadPiece(s).value == text {
      PieceConsumes(s);
      assert s[|text|] == rest[0];
    }
  }
}
