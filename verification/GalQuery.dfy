/**
 The address list query compiler: and/or/not queries over `contains`, `is` and
 `beginswith` become LDAP filter strings, or the constant the query always has, or are
 refused.  `table` gives the LDAP attribute of each contact field.
 */
module GalQuery {
  import opened Basics
  import opened LdapFilter

  datatype Function = AndFn | OrFn | NotFn | ContainsFn | IsFn | BeginsWithFn | EndsWithFn

  /** A parsed s-expression. */
  datatype Query =
    | Text(text: string)
    | Truth(value: bool)
    | Number(number: int)
    | Call(fn: Function, args: seq<Query>)

  datatype Result = StringResult(text: string) | BoolResult(value: bool) | OtherResult | Undefined

  type Table = map<string, string>

  const ANY_FIELD := "x-evolution-any-field"

  // ---- and, or, not --------------------------------------------------------

  /** The first argument that settles the operator: that constant, or an undefined one. */
  function Settling(args: seq<Result>, constant: bool): (k: nat)
    ensures k <= |args|
    ensures k < |args| ==> args[k] == BoolResult(constant) || args[k] == Undefined
    ensures forall i :: 0 <= i < k ==> args[i] != BoolResult(constant) && args[i] != Undefined
  {
    if args == [] || args[0] == BoolResult(constant) || args[0] == Undefined then 0
    else 1 + Settling(args[1..], constant)
  }

  function Strings(args: seq<Result>): string {
    if args == [] then ""
    else (if args[0].StringResult? then args[0].text else "") + Strings(args[1..])
  }

  function Combine(op: string, args: seq<Result>, constant: bool): Result {
    var k := Settling(args, constant);
    if k < |args| then args[k] else StringResult("(" + op + Strings(args) + ")")
  }

  function NotOf(args: seq<Result>): Result {
    if |args| != 1 then Undefined
    else
      match args[0]
      case StringResult(text) => StringResult("(!" + text + ")")
      case BoolResult(value) => BoolResult(!value)
      case _ => Undefined
  }

  // ---- contains ------------------------------------------------------------

  function Attribute(table: Table, name: string): Option<string> {
    var field := if name == "email" then "email_1" else name;
    if field in table then Some(table[field]) else None
  }

  function SubstringText(attribute: string, text: string): string {
    "(" + attribute + "=*" + text + "*)"
  }

  function ContainsOf(table: Table, args: seq<Result>): Result {
    if |args| != 2 || !args[0].StringResult? || !args[1].StringResult? then Undefined
    else
      var name, text := args[0].text, args[1].text;
      if name == ANY_FIELD then
        if text == "" then BoolResult(false) else StringResult("(mailNickname=" + text + ")")
      else
        match Attribute(table, name)
        case None => BoolResult(false)
        case Some(attribute) =>
          if text == "" then StringResult("(" + attribute + "=*)")
          else if name == "file_as" then
            StringResult("(|" + (SubstringText("displayName", text) + SubstringText("sn", text)
                                 + SubstringText(attribute, text)) + ")")
          else if attribute == "displayName" then
            StringResult("(|" + (SubstringText("displayName", text) + SubstringText("sn", text)
                                 + SubstringText("givenName", text)) + ")")
          else Undefined
  }

  // ---- is and beginswith ---------------------------------------------------

  function FirstSpace(s: string): (k: nat)
    ensures k <= |s|
    ensures k < |s| ==> s[k] == ' '
    ensures forall i :: 0 <= i < k ==> s[i] != ' '
  {
    if s == [] || s[0] == ' ' then 0 else 1 + FirstSpace(s[1..])
  }

  /** The first and the last name: "last, first" or "first last"; no names without a space inside. */
  function SplitName(s: string): Option<(string, string)> {
    var k := FirstSpace(s);
    if k == |s| || k == 0 then None
    else if s[k - 1] == ',' then Some((s[k + 1..], s[..k - 1]))
    else Some((s[..k], s[k + 1..]))
  }

  function ValueText(attribute: string, text: string, exact: bool): string {
    "(" + attribute + "=" + text + (if exact then "" else "*") + ")"
  }

  function IsOf(table: Table, args: seq<Result>, exact: bool): Result {
    if |args| != 2 || !args[0].StringResult? || !args[1].StringResult? then Undefined
    else
      var name, text := args[0].text, Escape(args[1].text);
      if !exact && text == "" && name != "file_as" then Undefined
      else if name == "file_as" then StringResult(ValueText("displayName", text, exact))
      else
        match Attribute(table, name)
        case None => BoolResult(false)
        case Some(attribute) =>
          if name == "full_name" then
            var anywhere :=
              ValueText("displayName", text, exact) + ValueText("sn", text, exact)
                  + ValueText("givenName", text, exact);
            match SplitName(text)
            case Some((first, last)) =>
              StringResult("(|" + (anywhere + ("(&" + (ValueText("givenName", first, exact)
                                                      + ValueText("sn", last, exact)) + ")")) + ")")
            case None => StringResult("(|" + (anywhere + ValueText("mailNickname", text, exact)) + ")")
          else StringResult(ValueText(attribute, text, exact))
  }

  // ---- compiling -----------------------------------------------------------

  function Apply(table: Table, fn: Function, args: seq<Result>): Result {
    match fn
    case AndFn => Combine("&", args, false)
    case OrFn => Combine("|", args, true)
    case NotFn => NotOf(args)
    case ContainsFn => ContainsOf(table, args)
    case IsFn => IsOf(table, args, true)
    case BeginsWithFn => IsOf(table, args, false)
    case EndsWithFn => Undefined
  }

  function Compile(table: Table, q: Query): Result
    decreases q
  {
    match q
    case Text(text) => StringResult(text)
    case Truth(value) => BoolResult(value)
    case Number(_) => OtherResult
    case Call(fn, args) => Apply(table, fn, CompileAll(table, args))
  }

  function CompileAll(table: Table, qs: seq<Query>): (r: seq<Result>)
    ensures |r| == |qs|
    decreases qs
  {
    if qs == [] then [] else [Compile(table, qs[0])] + CompileAll(table, qs[1..])
  }

  /** What to do with a query: refuse it, answer that nothing matches, or search. */
  datatype Outcome = Refuse | NoMatches | Search(filter: string)

  const HIDE := "msExchHideFromAddressLists"
  const VISIBLE := "(&" + "(mail=*)" + ("(!" + ("(" + HIDE + "=" + "TRUE" + ")") + ")")

  function BuildQuery(table: Table, q: Query, extra: Option<string>): Outcome {
    match Compile(table, q)
    case StringResult(text) =>
      if text == "(mail=*)" then Refuse
      else Search(VISIBLE + ((if extra.Some? then "(" + extra.value + ")" else "") + text) + ")")
    case BoolResult(_) => NoMatches
    case _ => Refuse
  }

  // ---- the loops -----------------------------------------------------------

  /** The first loop: how long the escaped text will be. */
  method EscapedLength(text: string) returns (n: nat)
    ensures n == |Escape(text)|
  {
    hide Escape;
    n := 0;
    EscapeNothing();
    var i := 0;
    while i < |text|
      invariant 0 <= i <= |text|
      invariant n == |Escape(text[..i])|
    {
      EscapeAppended(text[..i], text[i]);
      assert text[..i + 1] == text[..i] + [text[i]];
      n := n + if Special(text[i]) then 3 else 1;
      i := i + 1;
    }
    assert text[..i] == text;
  }

  /** Writes one character, escaped if it is special, where the text goes on. */
  method WriteChar(buffer: array<char>, j: nat, c: char) returns (next: nat)
    requires j + |Escaped(c)| <= buffer.Length
    modifies buffer
    ensures next == j + |Escaped(c)| && buffer[..next] == old(buffer[..j]) + Escaped(c)
  {
    if Special(c) {
      var hex := Hex(c);
      buffer[j], buffer[j + 1], buffer[j + 2] := '\\', hex[0], hex[1];
      next := j + 3;
      assert "\\" + hex == ['\\', hex[0], hex[1]];
    } else {
      buffer[j] := c;
      next := j + 1;
    }
  }

  /** Measures the escaped text, then writes it: exactly that many characters. */
  method Rfc2254Escape(text: string) returns (escaped: array<char>)
    ensures escaped[..] == Escape(text)
  {
    hide Escape, Escaped;
    var newLen := EscapedLength(text);
    escaped := new char[newLen];
    EscapeNothing();
    var i, j := 0, 0;
    while i < |text|
      invariant 0 <= i <= |text| && 0 <= j <= newLen == escaped.Length
      invariant escaped[..j] == Escape(text[..i])
    {
      EscapeFits(text, i);
      j := WriteChar(escaped, j, text[i]);
      i := i + 1;
    }
    assert text[..i] == text;
    assert escaped[..] == escaped[..j];
  }

  lemma EscapeNothing()
    ensures Escape("") == ""
  {
  }

  /** What the first characters take, one at a time, fits in what the whole text takes. */
  lemma EscapeFits(text: string, i: nat)
    requires i < |text|
    ensures Escape(text[..i + 1]) == Escape(text[..i]) + Escaped(text[i])
    ensures |Escape(text[..i + 1])| <= |Escape(text)|
  {
    hide Escape, Escaped;
    EscapeAppended(text[..i], text[i]);
    assert text[..i + 1] == text[..i] + [text[i]];
    EscapeConcat(text[..i + 1], text[i + 1..]);
    assert text == text[..i + 1] + text[i + 1..];
  }

  lemma EscapeAppended(s: string, c: char)
    ensures Escape(s + [c]) == Escape(s) + Escaped(c)
  {
    EscapeConcat(s, [c]);
    assert Escape([c]) == Escaped(c) + Escape([]);
  }

  lemma {:induction false} EscapeConcat(a: string, b: string)
    ensures Escape(a + b) == Escape(a) + Escape(b)
  {
    if a == [] {
      assert a + b == b;
    } else {
      EscapeConcat(a[1..], b);
      EscapeStep(a + b);
      EscapeStep(a);
      hide Escape, Escaped;
      assert (a + b)[0] == a[0] && (a + b)[1..] == a[1..] + b;
      Regroup(Escaped(a[0]), Escape(a[1..]), Escape(b));
    }
  }

  lemma EscapeStep(s: string)
    requires s != []
    ensures Escape(s) == Escaped(s[0]) + Escape(s[1..])
  {
  }

  lemma Regroup(a: string, b: string, c: string)
    ensures a + (b + c) == (a + b) + c
  {
  }

  /** `and` with constant false, `or` with constant true. */
  method CombineLoop(op: string, args: seq<Result>, constant: bool) returns (r: Result)
    ensures r == Combine(op, args, constant)
  {
    var i := 0;
    while i < |args|
      invariant 0 <= i <= |args|
      invariant Settling(args, constant) == i + Settling(args[i..], constant)
    {
      assert args[i..][1..] == args[i + 1..];
      if args[i] == BoolResult(constant) {
        return BoolResult(constant);
      } else if args[i] == Undefined {
        return Undefined;
      }
      i := i + 1;
    }
    var text := "(" + op;
    i := 0;
    while i < |args|
      invariant 0 <= i <= |args|
      invariant text + Strings(args[i..]) == "(" + op + Strings(args)
    {
      assert args[i..][1..] == args[i + 1..];
      ghost var later := Strings(args[i + 1..]);
      if args[i].StringResult? {
        assert text + (args[i].text + later) == (text + args[i].text) + later;
        text := text + args[i].text;
      } else {
        assert "" + later == later;
      }
      i := i + 1;
    }
    assert args[|args|..] == [] && text + "" == text;
    r := StringResult(text + ")");
  }
}
