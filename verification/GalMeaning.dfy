/**
 Query compilation preserves meaning: a filter string means what the query means for
 every directory entry, a constant is the query's constant, and whatever an unsupported
 part of the query might mean makes no difference.
 */
module GalMeaning {
  import opened LdapFilter
  import opened GalQuery

  // ---- what queries mean ---------------------------------------------------

  /** What a comparison asks of an entry, if the compiler supports it at all. */
  datatype Meaning = Matches(filter: Filter) | Constant(value: bool) | Unsupported

  function Containing(attribute: string, text: string): Filter {
    Test(attribute, ["", text, ""])
  }

  function Having(attribute: string, text: string, exact: bool): Filter {
    Test(attribute, if exact then [text] else [text, ""])
  }

  function ContainsMeaning(table: Table, name: string, text: string): Meaning {
    if name == ANY_FIELD then
      if text == "" then Constant(false) else Matches(Test("mailNickname", [text]))
    else
      match Attribute(table, name)
      case None => Constant(false)
      case Some(attribute) =>
        if text == "" then Matches(Test(attribute, ["", ""]))
        else if name == "file_as" then
          Matches(Or([Containing("displayName", text), Containing("sn", text), Containing(attribute, text)]))
        else if attribute == "displayName" then
          Matches(Or([Containing("displayName", text), Containing("sn", text), Containing("givenName", text)]))
        else Unsupported
  }

  function IsMeaning(table: Table, name: string, text: string, exact: bool): Meaning {
    if !exact && text == "" && name != "file_as" then Unsupported
    else if name == "file_as" then Matches(Having("displayName", text, exact))
    else
      match Attribute(table, name)
      case None => Constant(false)
      case Some(attribute) =>
        if name == "full_name" then
          var anywhere := [Having("displayName", text, exact), Having("sn", text, exact),
                           Having("givenName", text, exact)];
          match SplitName(text)
          case Some((first, last)) =>
            Matches(Or(anywhere + [And([Having("givenName", first, exact), Having("sn", last, exact)])]))
          case None => Matches(Or(anywhere + [Having("mailNickname", text, exact)]))
        else Matches(Having(attribute, text, exact))
  }

  /** What a comparison asks for, given the values of its operands. */
  function CallMeaning(table: Table, fn: Function, args: seq<Result>): Meaning {
    if |args| != 2 || !args[0].StringResult? || !args[1].StringResult? then Unsupported
    else
      match fn
      case ContainsFn => ContainsMeaning(table, args[0].text, args[1].text)
      case IsFn => IsMeaning(table, args[0].text, args[1].text, true)
      case BeginsWithFn => IsMeaning(table, args[0].text, args[1].text, false)
      case _ => Unsupported
  }

  predicate Operator(fn: Function) {
    fn == AndFn || fn == OrFn || fn == NotFn
  }

  /** A string that is the printed form of a filter. */
  predicate Spells(text: string) {
    var r := Parse(text);
    r.Read? && r.rest == "" && WellFormed(r.value) && Print(r.value) == text
  }

  /**
   Whether an entry satisfies a query; `other` says so for the parts that are not supported.
   A bare string stands for the filter it spells, and `and` and `or` pass over numbers.
   */
  ghost predicate Satisfies(table: Table, q: Query, entry: Entry, other: Query -> bool)
    decreases q
  {
    match q
    case Truth(value) => value
    case Text(text) => if Spells(text) then Holds(Parse(text).value, entry) else other(q)
    case Number(_) => other(q)
    case Call(fn, args) =>
      if fn == AndFn then forall a <- args :: a.Number? || Satisfies(table, a, entry, other)
      else if fn == OrFn then exists a <- args :: !a.Number? && Satisfies(table, a, entry, other)
      else if fn == NotFn then
        if |args| == 1 then !Satisfies(table, args[0], entry, other) else other(q)
      else
        (match CallMeaning(table, fn, CompileAll(table, args))
         case Matches(filter) => Holds(filter, entry)
         case Constant(value) => value
         case Unsupported => other(q))
  }

  /** Every bare string that is taken as a query spells a filter. */
  predicate Spelled(q: Query)
    decreases q
  {
    match q
    case Text(text) => Spells(text)
    case Call(fn, args) => Operator(fn) ==> forall a <- args :: Spelled(a)
    case _ => true
  }

  /** No `contains` looks for a special character. */
  predicate PlainContains(table: Table, q: Query)
    decreases q
  {
    match q
    case Call(fn, args) =>
      if Operator(fn) then forall a <- args :: PlainContains(table, a)
      else fn == ContainsFn && |args| == 2 ==>
        var text := Compile(table, args[1]);
        text.StringResult? ==> Plain(text.text)
    case _ => true
  }

  predicate PlainTable(table: Table) {
    forall field <- table :: Name(table[field])
  }

  // ---- the filter behind the string ----------------------------------------

  function FilterOf(table: Table, q: Query): Filter
    decreases q
  {
    match q
    case Call(AndFn, args) => And(FiltersOf(table, args))
    case Call(OrFn, args) => Or(FiltersOf(table, args))
    case Call(NotFn, args) => Not(if |args| == 1 then FilterOf(table, args[0]) else And([]))
    case Call(fn, args) =>
      var m := CallMeaning(table, fn, CompileAll(table, args));
      if m.Matches? then m.filter else And([])
    case Text(text) => if Spells(text) then Parse(text).value else And([])
    case _ => And([])
  }

  /** The filters of the arguments that compile to strings. */
  function FiltersOf(table: Table, qs: seq<Query>): seq<Filter>
    decreases qs
  {
    if qs == [] then []
    else (if Compile(table, qs[0]).StringResult? then [FilterOf(table, qs[0])] else []) + FiltersOf(table, qs[1..])
  }

  /** The result says what the meaning says, in the printed form. */
  ghost predicate Prints(r: Result, m: Meaning) {
    match m
    case Matches(filter) => WellFormed(filter) && r == StringResult(Print(filter))
    case Constant(value) => r == BoolResult(value)
    case Unsupported => r == Undefined
  }

  // ---- comparisons ---------------------------------------------------------

  lemma NothingEscaped()
    ensures Escape("") == ""
  {
  }

  lemma PrintPiecesOf(pieces: seq<string>)
    ensures |pieces| == 1 ==> PrintPieces(pieces) == Escape(pieces[0])
    ensures |pieces| == 2 ==> PrintPieces(pieces) == Escape(pieces[0]) + "*" + Escape(pieces[1])
    ensures |pieces| == 3 ==>
              PrintPieces(pieces) == Escape(pieces[0]) + "*" + (Escape(pieces[1]) + "*" + Escape(pieces[2]))
  {
    hide Escape;
    if |pieces| == 2 || |pieces| == 3 {
      assert pieces[1..][0] == pieces[1];
      if |pieces| == 3 { assert pieces[1..][1..][0] == pieces[2]; }
    }
  }

  lemma PrintHaving(attribute: string, text: string, exact: bool)
    ensures Print(Having(attribute, text, exact)) == ValueText(attribute, Escape(text), exact)
  {
    hide Escape, PrintPieces;
    NothingEscaped();
    PrintPiecesOf([text]);
    PrintPiecesOf([text, ""]);
    assert Escape(text) + "*" + "" == Escape(text) + "*";
  }

  lemma PrintContaining(attribute: string, text: string)
    requires Plain(text)
    ensures Print(Containing(attribute, text)) == SubstringText(attribute, text)
  {
    hide Escape, PrintPieces;
    NothingEscaped();
    PlainEscape(text);
    PrintPiecesOf(["", text, ""]);
    assert "" + "*" + (text + "*" + "") == "*" + text + "*";
  }

  lemma PrintTwo(f: Filter, g: Filter)
    ensures PrintAll([f, g]) == Print(f) + Print(g)
  {
    hide Print;
    assert [f, g][1..] == [g] && [g][1..] == [];
    assert PrintAll([g]) == Print(g) + "";
  }

  lemma PrintThree(f: Filter, g: Filter, h: Filter)
    ensures PrintAll([f, g, h]) == Print(f) + Print(g) + Print(h)
  {
    hide Print;
    PrintTwo(g, h);
    assert [f, g, h][1..] == [g, h];
    assert Print(f) + (Print(g) + Print(h)) == Print(f) + Print(g) + Print(h);
  }

  lemma PrintFour(f: Filter, g: Filter, h: Filter, i: Filter)
    ensures PrintAll([f, g, h] + [i]) == Print(f) + Print(g) + Print(h) + Print(i)
  {
    hide Print;
    PrintThree(g, h, i);
    assert ([f, g, h] + [i])[1..] == [g, h, i] && ([f, g, h] + [i])[0] == f;
    assert Print(f) + (Print(g) + Print(h) + Print(i)) == Print(f) + Print(g) + Print(h) + Print(i);
  }

  lemma MailNames()
    ensures Name("displayName") && Name("mailNickname") && Name("mail")
  {
    hide NameChar;
    Letters();
  }

  lemma PersonNames()
    ensures Name("sn") && Name("givenName")
  {
    hide NameChar;
    Letters();
  }

  lemma Letters()
    ensures forall c: char :: 'a' <= c <= 'z' || 'A' <= c <= 'Z' ==> NameChar(c)
  {
  }

  lemma Names()
    ensures Name("displayName") && Name("sn") && Name("givenName") && Name("mailNickname") && Name("mail")
  {
    MailNames();
    PersonNames();
  }

  lemma HavingFormed(attribute: string, text: string, exact: bool)
    requires Name(attribute)
    ensures WellFormed(Having(attribute, text, exact)) && WellFormed(Containing(attribute, text))
  {
  }

  lemma ContainsPrints(table: Table, name: string, text: string)
    requires PlainTable(table) && Plain(text)
    ensures Prints(ContainsOf(table, [StringResult(name), StringResult(text)]), ContainsMeaning(table, name, text))
  {
    hide Print, Escape, PrintPieces, SubstringText, Containing, Having, WellFormed, Name, NameChar, Plain;
    Names();
    var m := ContainsMeaning(table, name, text);
    if name == ANY_FIELD {
      TestPrints("mailNickname", [text]);
      PlainValue(text);
    } else if Attribute(table, name).Some? {
      var attribute := Attribute(table, name).value;
      if text == "" {
        TestPrints(attribute, ["", ""]);
        PlainValue("");
      } else if name == "file_as" {
        ThreeContaining("displayName", "sn", attribute, text);
      } else if attribute == "displayName" {
        ThreeContaining("displayName", "sn", "givenName", text);
      }
    }
  }

  lemma TestPrints(attribute: string, pieces: seq<string>)
    requires Name(attribute) && pieces != []
    ensures WellFormed(Test(attribute, pieces))
    ensures Print(Test(attribute, pieces)) == "(" + attribute + "=" + PrintPieces(pieces) + ")"
  {
  }

  lemma PlainValue(text: string)
    requires Plain(text)
    ensures PrintPieces([text]) == text
    ensures PrintPieces(["", ""]) == "*"
  {
    hide PrintPieces, Escape;
    NothingEscaped();
    PlainEscape(text);
    PrintPiecesOf([text]);
    PrintPiecesOf(["", ""]);
  }

  lemma ThreeContaining(a: string, b: string, c: string, text: string)
    requires Name(a) && Name(b) && Name(c) && Plain(text)
    ensures var f := Or([Containing(a, text), Containing(b, text), Containing(c, text)]);
            && WellFormed(f)
            && Print(f) == "(|" + (SubstringText(a, text) + SubstringText(b, text) + SubstringText(c, text)) + ")"
  {
    PrintContaining(a, text);
    PrintContaining(b, text);
    PrintContaining(c, text);
    HavingFormed(a, text, true);
    HavingFormed(b, text, true);
    HavingFormed(c, text, true);
    hide Containing, SubstringText, PrintPieces, Plain, Name;
    PrintThree(Containing(a, text), Containing(b, text), Containing(c, text));
  }

  // ---- splitting names -----------------------------------------------------

  lemma {:induction false} SpacesStay(s: string)
    requires ' ' !in s
    ensures ' ' !in Escape(s)
    ensures (s == "") == (Escape(s) == "")
    ensures s != "" ==> (Escape(s)[|Escape(s)| - 1] == ',' <==> s[|s| - 1] == ',')
  {
    if s != [] {
      EscapeStep(s);
      SpacesStay(s[1..]);
      assert s == [s[0]] + s[1..];
    }
  }

  lemma FirstSpaceAt(a: string, b: string)
    requires ' ' !in a
    ensures FirstSpace(a + " " + b) == |a| && FirstSpace(a) == |a|
  {
    assert (a + " " + b)[|a|] == ' ';
    assert forall i :: 0 <= i < |a| ==> (a + " " + b)[i] == a[i];
  }

  /** Splitting the escaped text at its first space splits the text itself. */
  lemma SplitEscaped(text: string)
    ensures SplitName(Escape(text)).Some? <==> SplitName(text).Some?
    ensures SplitName(text).Some? ==>
              SplitName(Escape(text)).value == (Escape(SplitName(text).value.0), Escape(SplitName(text).value.1))
  {
    hide Escape;
    var k := FirstSpace(text);
    if k == |text| {
      SpacesStay(text);
      NoSpace(Escape(text));
    } else {
      var a, b := text[..k], text[k + 1..];
      assert ' ' !in a;
      assert text == a + " " + b;
      SpacesStay(a);
      EscapeConcat(a + " ", b);
      EscapeConcat(a, " ");
      SpaceEscaped();
      FirstSpaceAt(Escape(a), Escape(b));
      var e := Escape(text);
      assert e == Escape(a) + " " + Escape(b);
      assert e[|Escape(a)| + 1..] == Escape(b) && e[..|Escape(a)|] == Escape(a);
      if k > 0 && text[k - 1] == ',' {
        CommaCut(a);
        assert e[..|Escape(a)| - 1] == Escape(a)[..|Escape(a)| - 1];
        assert a[..k - 1] == text[..k - 1];
      }
    }
  }

  lemma NoSpace(s: string)
    requires ' ' !in s
    ensures FirstSpace(s) == |s|
  {
  }

  lemma SpaceEscaped()
    ensures Escape(" ") == " " && Escape(",") == ","
  {
    assert " "[1..] == "" && ","[1..] == "";
  }

  lemma CommaCut(a: string)
    requires a != "" && a[|a| - 1] == ','
    ensures Escape(a) != "" && Escape(a)[..|Escape(a)| - 1] == Escape(a[..|a| - 1])
  {
    hide Escape;
    EscapeConcat(a[..|a| - 1], ",");
    SpaceEscaped();
    assert a == a[..|a| - 1] + ",";
  }

  lemma IsPrints(table: Table, name: string, text: string, exact: bool)
    requires PlainTable(table)
    ensures Prints(IsOf(table, [StringResult(name), StringResult(text)], exact), IsMeaning(table, name, text, exact))
  {
    hide Print, Escape, PrintPieces, ValueText, Having, WellFormed, Name, NameChar, SplitName;
    Names();
    EmptyEscape(text);
    if name == "file_as" {
      HavingPrints("displayName", text, exact);
    } else if Attribute(table, name).Some? {
      HavingPrints(Attribute(table, name).value, text, exact);
      SplitEscaped(text);
      if name == "full_name" {
        match SplitName(text)
        case Some((first, last)) => NamesPrint(text, first, last, exact);
        case None =>
          HavingPrints("mailNickname", text, exact);
          AnywherePrints(text, exact, Having("mailNickname", text, exact));
      }
    }
  }

  lemma EmptyEscape(text: string)
    ensures Escape(text) == "" <==> text == ""
  {
  }

  lemma HavingPrints(attribute: string, text: string, exact: bool)
    requires Name(attribute)
    ensures WellFormed(Having(attribute, text, exact))
    ensures Print(Having(attribute, text, exact)) == ValueText(attribute, Escape(text), exact)
  {
    HavingFormed(attribute, text, exact);
    PrintHaving(attribute, text, exact);
  }

  lemma AnywherePrints(text: string, exact: bool, more: Filter)
    requires WellFormed(more)
    ensures var f := Or([Having("displayName", text, exact), Having("sn", text, exact),
                Having("givenName", text, exact)] + [more]);
            && WellFormed(f)
            && Print(f) == "(|" + ((ValueText("displayName", Escape(text), exact) + ValueText("sn", Escape(text), exact)
                                    + ValueText("givenName", Escape(text), exact)) + Print(more)) + ")"
  {
    Names();
    HavingPrints("displayName", text, exact);
    HavingPrints("sn", text, exact);
    HavingPrints("givenName", text, exact);
    hide Having, ValueText, Escape, PrintPieces, Name;
    PrintFour(Having("displayName", text, exact), Having("sn", text, exact), Having("givenName", text, exact), more);
  }

  lemma NamesPrint(text: string, first: string, last: string, exact: bool)
    ensures var both := And([Having("givenName", first, exact), Having("sn", last, exact)]);
            var f := Or([Having("displayName", text, exact), Having("sn", text, exact),
                    Having("givenName", text, exact)] + [both]);
            && WellFormed(f)
            && Print(f) == "(|" + ((ValueText("displayName", Escape(text), exact) + ValueText("sn", Escape(text), exact)
                                    + ValueText("givenName", Escape(text), exact))
                                   + ("(&" + (ValueText("givenName", Escape(first), exact)
                                              + ValueText("sn", Escape(last), exact)) + ")")) + ")"
  {
    Names();
    HavingPrints("givenName", first, exact);
    HavingPrints("sn", last, exact);
    hide Having, ValueText, Escape, PrintPieces, Name;
    var both := And([Having("givenName", first, exact), Having("sn", last, exact)]);
    PrintTwo(Having("givenName", first, exact), Having("sn", last, exact));
    AnywherePrints(text, exact, both);
  }
}
