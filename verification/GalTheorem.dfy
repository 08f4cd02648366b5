/** Compiling whole queries, and the filter finally sent to the directory. */
module GalTheorem {
  import opened Basics
  import opened LdapFilter
  import opened GalQuery
  import opened GalMeaning

  // ---- lists of arguments --------------------------------------------------

  lemma {:induction false} CompiledAt(table: Table, qs: seq<Query>, k: nat)
    requires k < |qs|
    ensures CompileAll(table, qs)[k] == Compile(table, qs[k])
  {
    if k > 0 { CompiledAt(table, qs[1..], k - 1); }
  }

  /** The filters behind a list's strings are those of its members that compile to strings. */
  lemma {:induction false} FiltersExact(table: Table, qs: seq<Query>)
    ensures forall q :: q in qs && Compile(table, q).StringResult? ==> FilterOf(table, q) in FiltersOf(table, qs)
    ensures forall f :: f in FiltersOf(table, qs) ==>
              exists q :: q in qs && Compile(table, q).StringResult? && FilterOf(table, q) == f
  {
    hide Compile, FilterOf;
    if qs != [] {
      FiltersExact(table, qs[1..]);
      var first := if Compile(table, qs[0]).StringResult? then [FilterOf(table, qs[0])] else [];
      forall f | f in FiltersOf(table, qs)
        ensures exists q :: q in qs && Compile(table, q).StringResult? && FilterOf(table, q) == f
      {
        if f in first {
          assert qs[0] in qs;
        } else {
          var q :| q in qs[1..] && Compile(table, q).StringResult? && FilterOf(table, q) == f;
          assert q in qs;
        }
      }
      forall q | q in qs && Compile(table, q).StringResult?
        ensures FilterOf(table, q) in FiltersOf(table, qs)
      {
        assert q == qs[0] || q in qs[1..];
      }
    }
  }

  // ---- the string is the printed filter ------------------------------------

  predicate Printable(table: Table, q: Query) {
    PlainTable(table) && Spelled(q) && PlainContains(table, q)
  }

  lemma CallPrints(table: Table, fn: Function, args: seq<Query>)
    requires Printable(table, Call(fn, args)) && !Operator(fn)
    ensures Prints(Compile(table, Call(fn, args)), CallMeaning(table, fn, CompileAll(table, args)))
  {
    hide ContainsOf, IsOf, ContainsMeaning, IsMeaning;
    var results := CompileAll(table, args);
    if |args| == 2 && results[0].StringResult? && results[1].StringResult? {
      CompiledAt(table, args, 1);
      assert results == [StringResult(results[0].text), StringResult(results[1].text)];
      if fn == ContainsFn { ContainsPrints(table, results[0].text, results[1].text); }
      if fn == IsFn || fn == BeginsWithFn { IsPrints(table, results[0].text, results[1].text, fn == IsFn); }
    } else {
      LiteralArgs(table, fn, results);
    }
  }

  /** Anything but two strings is not compared. */
  lemma LiteralArgs(table: Table, fn: Function, results: seq<Result>)
    requires !Operator(fn)
    requires |results| != 2 || !results[0].StringResult? || !results[1].StringResult?
    ensures Apply(table, fn, results) == Undefined
  {
  }

  /** Only a number compiles to neither a string nor a constant without being refused. */
  lemma OtherIsNumber(table: Table, q: Query)
    ensures Compile(table, q) == OtherResult <==> q.Number?
  {
    hide ContainsOf, IsOf, CompileAll, Strings;
    if q.Call? {
      ComparisonResult(table, CompileAll(table, q.args), true);
      ComparisonResult(table, CompileAll(table, q.args), false);
    }
  }

  lemma ComparisonResult(table: Table, args: seq<Result>, exact: bool)
    ensures ContainsOf(table, args) != OtherResult && IsOf(table, args, exact) != OtherResult
  {
  }

  /** A string result is the printed, well-formed filter. */
  ghost predicate Printed(table: Table, q: Query) {
    Compile(table, q).StringResult? ==>
      WellFormed(FilterOf(table, q)) && Compile(table, q).text == Print(FilterOf(table, q))
  }

  lemma {:induction false} CompilePrints(table: Table, q: Query)
    requires Printable(table, q)
    ensures Printed(table, q)
    decreases q
  {
    hide Compile, FilterOf, Printable;
    if !q.Call? {
      LiteralPrints(table, q);
    } else if q.fn == AndFn || q.fn == OrFn {
      PartsPrintable(table, q);
      ListPrints(table, q.args);
      OperatorPrints(table, q);
    } else if q.fn == NotFn {
      PartsPrintable(table, q);
      if |q.args| == 1 { CompilePrints(table, q.args[0]); }
      NotPrints(table, q);
    } else {
      CallPrints(table, q.fn, q.args);
      ComparisonPrints(table, q);
    }
  }

  lemma LiteralPrints(table: Table, q: Query)
    requires Printable(table, q) && !q.Call?
    ensures Printed(table, q)
  {
    hide Parse, Print, WellFormed;
  }

  lemma OperatorPrints(table: Table, q: Query)
    requires q.Call? && (q.fn == AndFn || q.fn == OrFn)
    requires Strings(CompileAll(table, q.args)) == PrintAll(FiltersOf(table, q.args))
    requires forall f <- FiltersOf(table, q.args) :: WellFormed(f)
    ensures Printed(table, q)
  {
    hide Strings, PrintAll, FiltersOf, CompileAll, WellFormed, Print;
    PrintOperator(FiltersOf(table, q.args));
  }

  lemma NotPrints(table: Table, q: Query)
    requires q.Call? && q.fn == NotFn && (|q.args| == 1 ==> Printed(table, q.args[0]))
    ensures Printed(table, q)
  {
    hide CompileAll, WellFormed, Print;
    if |q.args| == 1 {
      CompiledAt(table, q.args, 0);
      PrintNot(FilterOf(table, q.args[0]));
    }
  }

  lemma ComparisonPrints(table: Table, q: Query)
    requires q.Call? && !Operator(q.fn)
    requires Prints(Compile(table, q), CallMeaning(table, q.fn, CompileAll(table, q.args)))
    ensures Printed(table, q)
  {
    hide CompileAll, CallMeaning, WellFormed, Print, Compile;
  }

  lemma PartsPrintable(table: Table, q: Query)
    requires Printable(table, q) && q.Call? && Operator(q.fn)
    ensures forall a <- q.args :: Printable(table, a)
  {
  }

  lemma PrintOperator(fs: seq<Filter>)
    ensures Print(And(fs)) == "(&" + PrintAll(fs) + ")" && Print(Or(fs)) == "(|" + PrintAll(fs) + ")"
    ensures (forall f <- fs :: WellFormed(f)) ==> WellFormed(And(fs)) && WellFormed(Or(fs))
  {
  }

  lemma PrintNot(f: Filter)
    ensures Print(Not(f)) == "(!" + Print(f) + ")" && WellFormed(Not(f)) == WellFormed(f)
  {
  }

  lemma {:induction false} ListPrints(table: Table, qs: seq<Query>)
    requires forall q <- qs :: Printable(table, q)
    ensures Strings(CompileAll(table, qs)) == PrintAll(FiltersOf(table, qs))
    ensures forall f <- FiltersOf(table, qs) :: WellFormed(f)
    decreases qs
  {
    hide Printable, Print, Compile, FilterOf, WellFormed;
    if qs != [] {
      CompilePrints(table, qs[0]);
      ListPrints(table, qs[1..]);
      var rest := FiltersOf(table, qs[1..]);
      if Compile(table, qs[0]).StringResult? {
        assert ([FilterOf(table, qs[0])] + rest)[1..] == rest;
      } else {
        assert [] + rest == rest && "" + PrintAll(rest) == PrintAll(rest);
      }
    }
  }

  // ---- the filter means what the query means -------------------------------

  /** What each argument compiled to. */
  lemma ListResults(table: Table, qs: seq<Query>)
    ensures forall k :: 0 <= k < |qs| ==>
              && CompileAll(table, qs)[k] == Compile(table, qs[k])
              && (Compile(table, qs[k]) == OtherResult <==> qs[k].Number?)
  {
    hide Compile;
    forall k | 0 <= k < |qs|
      ensures CompileAll(table, qs)[k] == Compile(table, qs[k])
      ensures Compile(table, qs[k]) == OtherResult <==> qs[k].Number?
    {
      CompiledAt(table, qs, k);
      OtherIsNumber(table, qs[k]);
    }
  }

  /** A conjunction says what its filters say, unless an argument settles it. */
  lemma AllMean(table: Table, qs: seq<Query>, entry: Entry, other: Query -> bool)
    requires forall q <- qs :: Printable(table, q) && Agrees(table, q, entry, other)
    ensures var c := Settling(CompileAll(table, qs), false);
            && (c == |qs| ==> ((forall q <- qs :: q.Number? || Satisfies(table, q, entry, other))
                               <==> Holds(And(FiltersOf(table, qs)), entry)))
            && (c < |qs| && CompileAll(table, qs)[c] == BoolResult(false) ==>
                  exists q <- qs :: !q.Number? && !Satisfies(table, q, entry, other))
  {
    hide Printable, Compile, FilterOf, Satisfies, CompileAll, FiltersOf, Settling;
    ListResults(table, qs);
    FiltersExact(table, qs);
    assert forall k :: 0 <= k < |qs| ==> qs[k] in qs;
  }

  /** A disjunction says what its filters say, unless an argument settles it. */
  lemma AnyMeans(table: Table, qs: seq<Query>, entry: Entry, other: Query -> bool)
    requires forall q <- qs :: Printable(table, q) && Agrees(table, q, entry, other)
    ensures var c := Settling(CompileAll(table, qs), true);
            && (c == |qs| ==> ((exists q <- qs :: !q.Number? && Satisfies(table, q, entry, other))
                               <==> Holds(Or(FiltersOf(table, qs)), entry)))
            && (c < |qs| && CompileAll(table, qs)[c] == BoolResult(true) ==>
                  exists q <- qs :: !q.Number? && Satisfies(table, q, entry, other))
  {
    hide Printable, Compile, FilterOf, Satisfies, CompileAll, FiltersOf, Settling;
    ListResults(table, qs);
    FiltersExact(table, qs);
    assert forall k :: 0 <= k < |qs| ==> qs[k] in qs;
  }

  /** A string result's filter says what the query says; a constant is what the query says. */
  ghost predicate Agrees(table: Table, q: Query, entry: Entry, other: Query -> bool) {
    match Compile(table, q)
    case StringResult(_) => Holds(FilterOf(table, q), entry) == Satisfies(table, q, entry, other)
    case BoolResult(value) => Satisfies(table, q, entry, other) == value
    case _ => true
  }

  lemma {:induction false} CompileMeans(table: Table, q: Query, entry: Entry, other: Query -> bool)
    requires Printable(table, q)
    ensures Agrees(table, q, entry, other)
    decreases q
  {
    hide Printable, CallMeaning;
    if q.Text? {
      TextMeans(table, q, entry, other);
    } else if q.Call? {
      var fn, args := q.fn, q.args;
      if fn == AndFn || fn == OrFn {
        PartsPrintable(table, q);
        forall a | a in args
          ensures Agrees(table, a, entry, other)
        {
          CompileMeans(table, a, entry, other);
        }
        hide Agrees, FiltersOf, CompileAll, Strings;
        if fn == AndFn { AllMean(table, args, entry, other); } else { AnyMeans(table, args, entry, other); }
        OperatorMeans(table, q, entry, other);
      } else if fn == NotFn {
        PartsPrintable(table, q);
        if |args| == 1 {
          CompileMeans(table, args[0], entry, other);
          CompiledAt(table, args, 0);
        }
      } else {
        CallPrints(table, fn, args);
      }
    }
  }

  lemma TextMeans(table: Table, q: Query, entry: Entry, other: Query -> bool)
    requires Printable(table, q) && q.Text?
    ensures Agrees(table, q, entry, other)
  {
    hide Parse, Print, WellFormed, Holds;
  }

  lemma OperatorMeans(table: Table, q: Query, entry: Entry, other: Query -> bool)
    requires q.Call? && (q.fn == AndFn || q.fn == OrFn)
    requires var qs := q.args;
             var c := Settling(CompileAll(table, qs), q.fn == OrFn);
             && (c == |qs| ==> Satisfies(table, q, entry, other) == Holds(FilterOf(table, q), entry))
             && (c < |qs| && CompileAll(table, qs)[c] == BoolResult(q.fn == OrFn) ==>
                   Satisfies(table, q, entry, other) == (q.fn == OrFn))
    ensures Agrees(table, q, entry, other)
  {
    hide Satisfies, Holds, Settling, FilterOf;
  }

  // ---- the filter sent to the directory ------------------------------------

  /** Both change times are at least that time. */
  function ChangedFilter(time: string): string {
    "|" + AtLeastText("whenCreated", time) + AtLeastText("whenChanged", time)
  }

  function AtLeastText(attribute: string, value: string): string {
    "(" + attribute + ">=" + value + ")"
  }

  function ChangedSince(time: string): Filter {
    Or([AtLeast("whenCreated", time), AtLeast("whenChanged", time)])
  }

  const HAS_MAIL := Test("mail", ["", ""])
  const HIDDEN := Test(HIDE, ["TRUE"])

  function SearchFilter(time: Option<string>, f: Filter): Filter {
    And([HAS_MAIL, Not(HIDDEN)] + (if time.Some? then [ChangedSince(time.value)] else []) + [f])
  }

  lemma PrintHasMail()
    ensures WellFormed(HAS_MAIL) && Print(HAS_MAIL) == "(mail=*)"
  {
    hide Name, PrintPieces, Escape;
    Names();
    TestPrints("mail", ["", ""]);
    PlainValue("");
  }

  lemma HiddenName()
    ensures Name(HIDE)
  {
    hide NameChar;
    Letters();
  }

  lemma TruePlain()
    ensures Plain("TRUE")
  {
  }

  lemma PrintVisible()
    ensures WellFormed(HIDDEN) && Print(Not(HIDDEN)) == "(!" + ("(" + HIDE + "=" + "TRUE" + ")") + ")"
  {
    hide Name, PrintPieces, Escape, Plain;
    HiddenName();
    TruePlain();
    TestPrints(HIDE, ["TRUE"]);
    PlainValue("TRUE");
    PrintNot(HIDDEN);
  }

  lemma ChangeNames()
    ensures Name("whenCreated") && Name("whenChanged")
  {
    hide NameChar;
    Letters();
  }

  lemma PrintChanged(time: string)
    requires Plain(time)
    ensures WellFormed(ChangedSince(time)) && Print(ChangedSince(time)) == "(" + ChangedFilter(time) + ")"
  {
    hide Name, Plain, AtLeastText, WellFormed, Print;
    ChangeNames();
    PrintEither("whenCreated", "whenChanged", time);
  }

  lemma PrintEither(a: string, b: string, value: string)
    requires Plain(value) && Name(a) && Name(b)
    ensures var f := Or([AtLeast(a, value), AtLeast(b, value)]);
            WellFormed(f) && Print(f) == "(" + ("|" + AtLeastText(a, value) + AtLeastText(b, value)) + ")"
  {
    PrintAtLeast(a, value);
    PrintAtLeast(b, value);
    hide Name, Escape, Plain, AtLeastText, PrintAll, PrintPieces, Print, WellFormed;
    PrintTwo(AtLeast(a, value), AtLeast(b, value));
    PrintOperator([AtLeast(a, value), AtLeast(b, value)]);
    Bracketed(AtLeastText(a, value), AtLeastText(b, value));
  }

  lemma Bracketed(a: string, b: string)
    ensures "(|" + (a + b) + ")" == "(" + ("|" + a + b) + ")"
  {
  }

  lemma PrintAtLeast(attribute: string, value: string)
    requires Plain(value) && Name(attribute)
    ensures WellFormed(AtLeast(attribute, value)) && Print(AtLeast(attribute, value)) == AtLeastText(attribute, value)
  {
    hide Escape, Plain, Name;
    PlainEscape(value);
  }

  lemma PrintSearch(time: Option<string>, f: Filter)
    requires (time.Some? ==> Plain(time.value)) && WellFormed(f)
    ensures WellFormed(SearchFilter(time, f))
    ensures Print(SearchFilter(time, f)) ==
            VISIBLE + ((if time.Some? then "(" + ChangedFilter(time.value) + ")" else "") + Print(f)) + ")"
  {
    PrintHasMail();
    PrintVisible();
    hide ChangedSince, ChangedFilter, PrintAll, Plain, Print, WellFormed;
    var m, v, p := Print(HAS_MAIL), Print(Not(HIDDEN)), Print(f);
    PrintNot(HIDDEN);
    if time.Some? {
      PrintChanged(time.value);
      var c := Print(ChangedSince(time.value));
      PrintFour(HAS_MAIL, Not(HIDDEN), ChangedSince(time.value), f);
      assert [HAS_MAIL, Not(HIDDEN)] + [ChangedSince(time.value)] + [f] ==
             [HAS_MAIL, Not(HIDDEN), ChangedSince(time.value)] + [f];
      PrintOperator([HAS_MAIL, Not(HIDDEN), ChangedSince(time.value)] + [f]);
      FourInside(m, v, c, p);
    } else {
      PrintThree(HAS_MAIL, Not(HIDDEN), f);
      assert [HAS_MAIL, Not(HIDDEN)] + [] + [f] == [HAS_MAIL, Not(HIDDEN), f];
      PrintOperator([HAS_MAIL, Not(HIDDEN), f]);
      FourInside(m, v, "", p);
      assert m + v + "" + p == m + v + p;
    }
  }

  lemma FourInside(a: string, b: string, c: string, d: string)
    ensures "(&" + (a + b + c + d) + ")" == "(&" + a + b + (c + d) + ")"
  {
  }

  /** Two filters that print alike are the same filter. */
  lemma PrintInjective(f: Filter, g: Filter)
    requires WellFormed(f) && WellFormed(g) && Print(f) == Print(g)
    ensures f == g
  {
    hide Print, Parse;
    ParsePrint(f, "");
    ParsePrint(g, "");
  }

  /** What the query, optionally limited to recent changes, comes to. */
  lemma BuildQueryMeans(table: Table, q: Query, time: Option<string>, entry: Entry, other: Query -> bool)
    requires Printable(table, q) && (time.Some? ==> Plain(time.value))
    ensures var extra := if time.Some? then Some(ChangedFilter(time.value)) else None;
            match BuildQuery(table, q, extra)
            case Search(text) =>
              && Parse(text) == Read(SearchFilter(time, FilterOf(table, q)), "")
              && (Holds(SearchFilter(time, FilterOf(table, q)), entry) <==>
                    && entry(HAS_MAIL) && !entry(HIDDEN)
                    && (time.Some? ==>
                          entry(AtLeast("whenCreated", time.value)) || entry(AtLeast("whenChanged", time.value)))
                    && Satisfies(table, q, entry, other))
            case NoMatches =>
              Compile(table, q).BoolResult? && Satisfies(table, q, entry, other) == Compile(table, q).value
            case Refuse =>
              || Compile(table, q) == Undefined || q.Number?
              || Satisfies(table, q, entry, other) == entry(HAS_MAIL)
  {
    OtherIsNumber(table, q);
    CompilePrints(table, q);
    CompileMeans(table, q, entry, other);
    hide Compile, FilterOf, Satisfies, Print, Parse, WellFormed, SearchFilter, ChangedFilter, Plain, Printable;
    PrintHasMail();
    match Compile(table, q)
    case StringResult(text) =>
      var f := FilterOf(table, q);
      if text == "(mail=*)" {
        PrintInjective(f, HAS_MAIL);
      } else {
        PrintSearch(time, f);
        ParsePrint(SearchFilter(time, f), "");
        assert Print(SearchFilter(time, f)) + "" == Print(SearchFilter(time, f));
        SearchHolds(time, f, entry);
      }
    case _ =>
  }

  lemma SearchHolds(time: Option<string>, f: Filter, entry: Entry)
    ensures Holds(SearchFilter(time, f), entry) <==>
            && entry(HAS_MAIL) && !entry(HIDDEN) && Holds(f, entry)
            && (time.Some? ==> entry(AtLeast("whenCreated", time.value)) || entry(AtLeast("whenChanged", time.value)))
  {
    var changed := if time.Some? then [ChangedSince(time.value)] else [];
    var all := [HAS_MAIL, Not(HIDDEN)] + changed + [f];
    assert forall g :: g in all <==> g == HAS_MAIL || g == Not(HIDDEN) || g in changed || g == f;
    assert Holds(HAS_MAIL, entry) == entry(HAS_MAIL) && Holds(Not(HIDDEN), entry) == !entry(HIDDEN);
    if time.Some? {
      var t := time.value;
      var either := [AtLeast("whenCreated", t), AtLeast("whenChanged", t)];
      assert either[0] in either && either[1] in either;
      assert Holds(either[0], entry) == entry(either[0]) && Holds(either[1], entry) == entry(either[1]);
      assert Holds(ChangedSince(t), entry) <==> entry(either[0]) || entry(either[1]);
    }
  }

  // ---- what is refused -----------------------------------------------------

  /** Every comparison is one the compiler supports, and `not` negates one query. */
  predicate Supported(table: Table, q: Query)
    decreases q
  {
    match q
    case Number(_) => false
    case Call(fn, args) =>
      if fn == NotFn then |args| == 1 && Supported(table, args[0])
      else if Operator(fn) then forall a <- args :: a.Number? || Supported(table, a)
      else CallMeaning(table, fn, CompileAll(table, args)) != Unsupported
    case _ => true
  }

  lemma ComparisonSupported(table: Table, fn: Function, args: seq<Result>)
    requires !Operator(fn) && CallMeaning(table, fn, args) != Unsupported
    ensures Apply(table, fn, args).StringResult? || Apply(table, fn, args).BoolResult?
  {
  }

  lemma Settled(op: string, args: seq<Result>, constant: bool)
    requires Undefined !in args
    ensures Combine(op, args, constant).StringResult? || Combine(op, args, constant).BoolResult?
  {
    var k := Settling(args, constant);
    if k < |args| { assert args[k] in args; }
  }

  /** A supported query compiles to a filter or to a constant. */
  lemma {:induction false} SupportedCompiles(table: Table, q: Query)
    requires Supported(table, q)
    ensures Compile(table, q).StringResult? || Compile(table, q).BoolResult?
    decreases q
  {
    if q.Call? {
      var fn, args := q.fn, q.args;
      if !Operator(fn) {
        ComparisonSupported(table, fn, CompileAll(table, args));
      } else if fn == NotFn {
        SupportedCompiles(table, args[0]);
        CompiledAt(table, args, 0);
      } else {
        hide Compile, CompileAll, Combine;
        forall r | r in CompileAll(table, args)
          ensures r != Undefined
        {
          var k :| 0 <= k < |args| && CompileAll(table, args)[k] == r;
          CompiledAt(table, args, k);
          assert args[k] in args;
          OtherIsNumber(table, args[k]);
          if !args[k].Number? { SupportedCompiles(table, args[k]); }
        }
        Settled("&", CompileAll(table, args), false);
        Settled("|", CompileAll(table, args), true);
        CompiledOperator(table, q);
      }
    }
  }

  lemma CompiledOperator(table: Table, q: Query)
    requires q.Call? && (q.fn == AndFn || q.fn == OrFn)
    ensures Compile(table, q) ==
            if q.fn == AndFn then Combine("&", CompileAll(table, q.args), false)
            else Combine("|", CompileAll(table, q.args), true)
  {
  }

  /** A supported query is refused exactly when it asks for nothing but a mail address. */
  lemma RefusedIff(table: Table, q: Query, extra: Option<string>)
    requires Printable(table, q) && Supported(table, q)
    ensures BuildQuery(table, q, extra) == Refuse <==> Compile(table, q).StringResult? && FilterOf(table, q) == HAS_MAIL
  {
    SupportedCompiles(table, q);
    CompilePrints(table, q);
    hide Compile, FilterOf, Print, WellFormed, Printable, Supported;
    PrintHasMail();
    if Compile(table, q).StringResult? && Compile(table, q).text == "(mail=*)" {
      PrintInjective(FilterOf(table, q), HAS_MAIL);
    }
  }

  // ---- bare strings --------------------------------------------------------

  /** The strings that spell a filter are the printed forms of filters. */
  lemma SpellsIff(text: string)
    ensures Spells(text) <==> exists f :: WellFormed(f) && Print(f) == text
  {
    hide Parse, Print, WellFormed;
    if f :| WellFormed(f) && Print(f) == text {
      ParsePrint(f, "");
      assert text + "" == text;
    }
  }

  /** A bare string that spells none ends up in a search that is no filter. */
  lemma BareStringUnreadable(table: Table)
    ensures Compile(table, Call(AndFn, [Text("x")])) == StringResult("(&x)") && Parse("(&x)") == Fail
  {
    var args := [Text("x")];
    assert args[1..] == [];
    assert CompileAll(table, args) == [StringResult("x")] + CompileAll(table, []);
    assert [StringResult("x")][1..] == [];
    assert Strings([StringResult("x")]) == "x" + Strings([]);
    assert "(&x)"[2..] == "x)";
  }

  // ---- unescaped substrings ------------------------------------------------

  /** A test whose value was written without escaping reads back as intended only when it is plain. */
  lemma RawSubstring(attribute: string, text: string, rest: string)
    requires Name(attribute) && Parse(SubstringText(attribute, text) + rest).Read?
    requires Parse(SubstringText(attribute, text) + rest).value == Containing(attribute, text)
    ensures Plain(text)
  {
    hide ReadPiece, Plain;
    var tail := text + ("*)" + rest);
    var s := SubstringText(attribute, text) + rest;
    assert s == "(" + (attribute + ("=" + ("*" + tail)));
    assert s[1..] == attribute + ("=" + ("*" + tail)) && s[1] == attribute[0];
    ReadNameBack(attribute, "=" + ("*" + tail));
    assert ("=" + ("*" + tail))[1..] == "*" + tail;
    FirstPieces(tail);
    RawPieceIff(text, "*)" + rest);
  }

  lemma FirstPieces(tail: string)
    ensures ReadPieces("*" + tail).Read? && |ReadPieces("*" + tail).value| == 3 ==>
              ReadPiece(tail).Read? && ReadPieces("*" + tail).value[1] == ReadPiece(tail).value
  {
    assert ("*" + tail)[1..] == tail;
    assert ReadPiece("*" + tail) == Read("", "*" + tail);
    OnePiece("*" + tail);
    OnePiece(tail);
  }

  lemma OnePiece(s: string)
    ensures ReadPieces(s).Read? ==> ReadPiece(s).Read? && ReadPieces(s).value[0] == ReadPiece(s).value
    ensures ReadPieces(s).Read? && |ReadPieces(s).value| > 1 ==>
              var rest := ReadPiece(s).rest;
              ReadPieces(rest[1..]).Read? && ReadPieces(s).value[1..] == ReadPieces(rest[1..]).value
  {
    hide ReadPiece;
  }

  lemma RawValue(attribute: string, text: string)
    requires Name(attribute) && Parse("(" + attribute + "=" + text + ")") == Read(Test(attribute, [text]), "")
    ensures Plain(text)
  {
    hide ReadPiece, ReadPieces, ReadName, Plain;
    var s := "(" + attribute + "=" + text + ")";
    var value := "=" + (text + ")");
    assert s == "(" + (attribute + value);
    assert s[1..] == attribute + value && s[1] == attribute[0];
    ReadNameBack(attribute, "=" + (text + ")"));
    assert ("=" + (text + ")"))[1..] == text + ")";
    OnePiece(text + ")");
    RawPieceIff(text, ")");
  }

  lemma RawList(a: string, text: string, more: string, fs: seq<Filter>)
    requires Name(a) && fs != [] && fs[0] == Containing(a, text)
    requires Parse("(|" + (SubstringText(a, text) + more) + ")") == Read(Or(fs), "")
    ensures Plain(text)
  {
    hide ReadTest, Plain, Name;
    var s := "(|" + (SubstringText(a, text) + more) + ")";
    assert s[2..] == SubstringText(a, text) + (more + ")");
    assert ParseAll(s[2..]).Read? && ParseAll(s[2..]).value == fs;
    RawSubstring(a, text, more + ")");
  }

  /** `contains` asks what it should exactly when its text has no special character. */
  lemma ContainsIff(table: Table, name: string, text: string)
    requires PlainTable(table) && ContainsMeaning(table, name, text).Matches?
    ensures var r := ContainsOf(table, [StringResult(name), StringResult(text)]);
            && r.StringResult?
            && (Parse(r.text) == Read(ContainsMeaning(table, name, text).filter, "") <==> Plain(text))
  {
    hide Parse, Print, Plain, Name, SubstringText, Containing, WellFormed;
    Names();
    var r := ContainsOf(table, [StringResult(name), StringResult(text)]);
    var f := ContainsMeaning(table, name, text).filter;
    if Plain(text) {
      ContainsPrints(table, name, text);
      ParsePrint(f, "");
      assert Print(f) + "" == Print(f);
    } else if Parse(r.text) == Read(f, "") {
      if name == ANY_FIELD {
        assert "(mailNickname=" + text + ")" == "(" + "mailNickname" + "=" + text + ")";
        RawValue("mailNickname", text);
      } else if text == "" {
        NothingPlain();
      } else {
        var third := if name == "file_as" then Attribute(table, name).value else "givenName";
        var more := SubstringText("sn", text) + SubstringText(third, text);
        assert SubstringText("displayName", text) + SubstringText("sn", text) + SubstringText(third, text)
               == SubstringText("displayName", text) + more;
        RawList("displayName", text, more,
                [Containing("displayName", text), Containing("sn", text), Containing(third, text)]);
      }
    }
  }

  lemma NothingPlain()
    ensures Plain("")
  {
  }

  /** Asked for entries that contain an asterisk, the program asks for every entry with a nickname. */
  lemma AsteriskAsksForAll(table: Table)
    ensures var r := ContainsOf(table, [StringResult(ANY_FIELD), StringResult("*")]);
            r.StringResult? && Parse(r.text) == Read(Test("mailNickname", ["", ""]), "")
    ensures ContainsMeaning(table, ANY_FIELD, "*") == Matches(Test("mailNickname", ["*"]))
  {
    hide Parse, Print, Name, WellFormed;
    var f := Test("mailNickname", ["", ""]);
    Names();
    TestPrints("mailNickname", ["", ""]);
    TwoEmptyPieces();
    assert "(" + "mailNickname" + "=" + "*" + ")" == "(mailNickname=" + "*" + ")";
    ParsePrint(f, "");
    assert Print(f) + "" == Print(f);
  }

  lemma TwoEmptyPieces()
    ensures PrintPieces(["", ""]) == "*"
  {
    assert ["", ""][1..] == [""];
    assert PrintPieces([""]) == Escape("") == "";
  }
}
