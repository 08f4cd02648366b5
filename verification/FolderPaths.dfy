/**
 Folder paths on disk.  Each separator of a folder path becomes "/subfolders/"; the
 result is measured in one pass over the path and written in a second one.
 */
module FolderPaths {
  import opened Basics

  const SUBFOLDERS := "subfolders"

  /** What stands for a separator. */
  const BETWEEN := "/" + SUBFOLDERS + "/"

  /** The first slash, or the length of the text. */
  function FirstSlash(s: string): (k: nat)
    ensures k <= |s|
    ensures k < |s| ==> s[k] == '/'
    ensures forall i :: 0 <= i < k ==> s[i] != '/'
  {
    if s == [] || s[0] == '/' then 0 else 1 + FirstSlash(s[1..])
  }

  function SkipSlashes(s: string): (r: string)
    ensures |r| <= |s| && (r != [] ==> r[0] != '/')
    ensures s != [] && s[0] == '/' ==> |r| < |s|
  {
    if s != [] && s[0] == '/' then SkipSlashes(s[1..]) else s
  }

  /** What follows the first separator, however many slashes make it up. */
  function Next(s: string): (r: string)
    requires FirstSlash(s) < |s|
    ensures |r| < |s|
  {
    SkipSlashes(s[FirstSlash(s)..])
  }

  /** The folder names of a path. */
  function Components(s: string): (names: seq<string>)
    ensures names != []
    decreases |s|
  {
    var k := FirstSlash(s);
    if k == |s| then [s] else [s[..k]] + Components(Next(s))
  }

  function Join(names: seq<string>, separator: string): string
    requires names != []
  {
    if |names| == 1 then names[0] else names[0] + separator + Join(names[1..], separator)
  }

  /** The path with each run of slashes made one. */
  function Collapsed(s: string): string {
    Join(Components(s), "/")
  }

  function Mangled(s: string): string {
    Join(Components(s), BETWEEN)
  }

  function Physical(prefix: Option<string>, path: string): string {
    (if prefix.Some? then prefix.value else "") + "/" + Mangled(SkipSlashes(path))
  }

  /** The slashes that directly follow another slash. */
  function Surplus(s: string): nat {
    if |s| < 2 then 0 else (if s[0] == '/' && s[1] == '/' then 1 else 0) + Surplus(s[1..])
  }

  // ---- reading a physical path back ----------------------------------------

  /** The path a mangled one stands for. */
  function Unmangled(m: string): Option<string>
    decreases |m|
  {
    var k := FirstSlash(m);
    if k == |m| then Some(m)
    else if !(BETWEEN <= m[k..]) then None
    else
      match Unmangled(m[k..][|BETWEEN|..])
      case None => None
      case Some(rest) => Some(m[..k] + "/" + rest)
  }

  lemma {:induction false} NoSlashInNames(s: string)
    ensures forall name <- Components(s) :: '/' !in name
    decreases |s|
  {
    if FirstSlash(s) < |s| { NoSlashInNames(Next(s)); }
  }

  lemma FirstSlashAfter(name: string, rest: string)
    requires '/' !in name && rest != [] && rest[0] == '/'
    ensures FirstSlash(name + rest) == |name|
  {
    assert (name + rest)[|name|] == '/';
    assert forall i :: 0 <= i < |name| ==> (name + rest)[i] == name[i];
  }

  lemma {:induction false} UnmangledJoin(names: seq<string>)
    requires names != [] && forall name <- names :: '/' !in name
    ensures Unmangled(Join(names, BETWEEN)) == Some(Join(names, "/"))
  {
    hide Unmangled;
    assert names[0] in names;
    if |names| == 1 {
      UnmangledWhole(names[0]);
    } else {
      UnmangledJoin(names[1..]);
      var later := Join(names[1..], BETWEEN);
      UnmangledStep(names[0], later);
      Regrouped(names[0], BETWEEN, later);
    }
  }

  lemma Regrouped(a: string, b: string, c: string)
    ensures a + b + c == a + (b + c)
  {
  }

  lemma UnmangledWhole(s: string)
    requires '/' !in s
    ensures Unmangled(s) == Some(s)
  {
    NoFirstSlash(s);
  }

  lemma NoFirstSlash(s: string)
    requires '/' !in s
    ensures FirstSlash(s) == |s|
  {
  }

  lemma UnmangledStep(name: string, later: string)
    requires '/' !in name && Unmangled(later).Some?
    ensures Unmangled(name + (BETWEEN + later)) == Some(name + "/" + Unmangled(later).value)
  {
    hide FirstSlash;
    StartsWith(BETWEEN, later);
    StartsWith(name, BETWEEN + later);
    assert BETWEEN[0] == '/';
    FirstSlashAfter(name, BETWEEN + later);
  }

  lemma StartsWith(a: string, b: string)
    ensures a <= a + b && (a + b)[|a|..] == b && (a + b)[..|a|] == a
    ensures a != "" ==> (a + b)[0] == a[0]
  {
  }

  /** A physical path tells which collapsed path it was made from, whatever the path. */
  lemma MangledInverts(path: string)
    ensures Unmangled(Mangled(path)) == Some(Collapsed(path))
  {
    NoSlashInNames(path);
    UnmangledJoin(Components(path));
  }

  predicate SingleSlashes(s: string) {
    forall i :: 0 <= i && i + 1 < |s| && s[i] == '/' ==> s[i + 1] != '/'
  }

  /** Without doubled slashes nothing is collapsed. */
  lemma {:induction false} SingleSlashesStay(s: string)
    requires SingleSlashes(s)
    ensures Collapsed(s) == s
    decreases |s|
  {
    var k := FirstSlash(s);
    if k < |s| {
      var next := s[k + 1..];
      assert s[k..] == ['/'] + next;
      assert next != [] ==> next[0] == s[k + 1];
      assert SkipSlashes(s[k..]) == next;
      assert SingleSlashes(next) by {
        forall i | 0 <= i && i + 1 < |next| && next[i] == '/'
          ensures next[i + 1] != '/'
        {
          assert s[k + 1 + i] == next[i] && s[k + 1 + i + 1] == next[i + 1];
        }
      }
      SingleSlashesStay(next);
      assert s == s[..k] + "/" + next;
    }
  }

  lemma JoinTwo(names: seq<string>)
    requires |names| > 1
    ensures Join(names, "/") == names[0] + ("/" + Join(names[1..], "/"))
  {
    hide Join;
    JoinStep(names, "/");
    Regrouped(names[0], "/", Join(names[1..], "/"));
  }

  lemma JoinStep(names: seq<string>, separator: string)
    requires |names| > 1
    ensures Join(names, separator) == names[0] + separator + Join(names[1..], separator)
  {
  }

  /** A name, a slash and more: the name ends at the first slash. */
  lemma HeadOf(name: string, more: string)
    requires '/' !in name
    ensures var s := name + ("/" + more);
            FirstSlash(s) == |name| < |s| && s[..|name|] == name && s[|name| + 1..] == more
  {
    hide FirstSlash;
    FirstSlashAfter(name, "/" + more);
    StartsWith(name, "/" + more);
    SecondPart(name, '/', more);
  }

  lemma SecondPart(name: string, c: char, more: string)
    ensures (name + ([c] + more))[|name| + 1..] == more
  {
  }

  lemma JoinedHead(names: seq<string>)
    requires names != [] && forall name <- names :: '/' !in name
    ensures var s := Join(names, "/");
            && FirstSlash(s) == |names[0]| && s[..|names[0]|] == names[0]
            && (|names| == 1 <==> |s| == |names[0]|)
            && (|names| > 1 ==> s[|names[0]| + 1..] == Join(names[1..], "/"))
  {
    hide FirstSlash, Join;
    assert names[0] in names;
    if |names| == 1 {
      JoinOne(names);
      NoFirstSlash(names[0]);
    } else {
      JoinTwo(names);
      HeadOf(names[0], Join(names[1..], "/"));
    }
  }

  lemma JoinOne(names: seq<string>)
    requires |names| == 1
    ensures Join(names, "/") == names[0] && names[0][..|names[0]|] == names[0]
  {
  }

  /** Joined by slashes, names without slashes can be told apart. */
  lemma {:induction false} JoinInjective(a: seq<string>, b: seq<string>)
    requires a != [] && b != [] && (forall name <- a :: '/' !in name) && (forall name <- b :: '/' !in name)
    requires Join(a, "/") == Join(b, "/")
    ensures a == b
    decreases |a|
  {
    hide Join, FirstSlash;
    JoinedHead(a);
    JoinedHead(b);
    assert a[0] == b[0];
    if |a| > 1 {
      JoinInjective(a[1..], b[1..]);
    }
    assert a == [a[0]] + a[1..] && b == [b[0]] + b[1..];
  }

  /** The folder names, and so the physical path, can be read off the collapsed path. */
  lemma CollapsedSameIff(a: string, b: string)
    ensures Mangled(a) == Mangled(b) <==> Collapsed(a) == Collapsed(b)
  {
    MangledInverts(a);
    MangledInverts(b);
    if Collapsed(a) == Collapsed(b) {
      NoSlashInNames(a);
      NoSlashInNames(b);
      JoinInjective(Components(a), Components(b));
    }
  }

  /** Two paths have the same physical path exactly when they collapse to the same path. */
  lemma PhysicalSameIff(prefix: Option<string>, a: string, b: string)
    ensures Physical(prefix, a) == Physical(prefix, b) <==> Collapsed(SkipSlashes(a)) == Collapsed(SkipSlashes(b))
  {
    hide Mangled, Collapsed, SkipSlashes;
    CollapsedSameIff(SkipSlashes(a), SkipSlashes(b));
    var start := (if prefix.Some? then prefix.value else "") + "/";
    StartsWith(start, Mangled(SkipSlashes(a)));
    StartsWith(start, Mangled(SkipSlashes(b)));
  }

  /**
   A physical path lies under the prefix, if there is one, and what follows reads back as the
   path without leading slashes and with each run of slashes made one.
   */
  lemma PhysicalReads(prefix: Option<string>, path: string)
    ensures var start := match prefix case None => "/" case Some(dir) => dir + "/";
            var physical := Physical(prefix, path);
            && start <= physical
            && Unmangled(physical[|start|..]) == Some(Collapsed(SkipSlashes(path)))
  {
    hide Mangled, Collapsed, SkipSlashes, Unmangled;
    var start := (if prefix.Some? then prefix.value else "") + "/";
    assert prefix.None? ==> start == "/";
    StartsWith(start, Mangled(SkipSlashes(path)));
    MangledInverts(SkipSlashes(path));
  }

  /** Paths without leading or doubled slashes can be told apart by their physical paths. */
  lemma PhysicalInjective(prefix: Option<string>, a: string, b: string)
    requires SingleSlashes(a) && SingleSlashes(b) && (a == "" || a[0] != '/') && (b == "" || b[0] != '/')
    requires Physical(prefix, a) == Physical(prefix, b)
    ensures a == b
  {
    PhysicalSameIff(prefix, a, b);
    SingleSlashesStay(a);
    SingleSlashesStay(b);
  }

  // ---- the two passes ------------------------------------------------------

  /** What a path's separators add to its length once they are translated. */
  function Added(s: string): nat
    decreases |s|
  {
    if FirstSlash(s) == |s| then 0 else 11 + Added(Next(s))
  }

  lemma {:induction false} MangledLength(s: string)
    ensures |Mangled(s)| == |Collapsed(s)| + Added(s) && |s| == |Collapsed(s)| + Surplus(s)
    decreases |s|
  {
    hide Mangled, Collapsed, SkipSlashes, FirstSlash, Surplus;
    var k := FirstSlash(s);
    SurplusAfterName(s, k);
    if k < |s| {
      MangledLength(Next(s));
      MangledUnfold(s);
      SurplusRun(s[k..]);
    } else {
      MangledWhole(s);
      assert s[|s|..] == "";
      NoSurplus();
    }
  }

  lemma NoSurplus()
    ensures Surplus("") == 0
  {
  }

  lemma {:induction false} SurplusAfterName(s: string, k: nat)
    requires k <= |s| && forall i :: 0 <= i < k ==> s[i] != '/'
    ensures Surplus(s) == Surplus(s[k..])
  {
    if k > 0 {
      assert s[1..][k - 1..] == s[k..];
      SurplusAfterName(s[1..], k - 1);
    } else {
      assert s[0..] == s;
    }
  }

  /** A run of slashes has all but one of them to spare. */
  lemma {:induction false} SurplusRun(s: string)
    requires s != [] && s[0] == '/'
    ensures Surplus(s) == |s| - |SkipSlashes(s)| - 1 + Surplus(SkipSlashes(s))
  {
    if |s| >= 2 && s[1] == '/' {
      SurplusRun(s[1..]);
    }
  }

  lemma JoinUnfold(s: string, separator: string)
    requires FirstSlash(s) < |s|
    ensures Join(Components(s), separator) == s[..FirstSlash(s)] + separator + Join(Components(Next(s)), separator)
  {
    hide FirstSlash, SkipSlashes, Next;
    var names, rest := Components(s), Components(Next(s));
    assert names[0] == s[..FirstSlash(s)] && names[1..] == rest;
  }

  lemma MangledUnfold(s: string)
    requires FirstSlash(s) < |s|
    ensures Mangled(s) == s[..FirstSlash(s) + 1] + (SUBFOLDERS + "/" + Mangled(Next(s)))
    ensures Collapsed(s) == s[..FirstSlash(s)] + "/" + Collapsed(Next(s))
  {
    JoinUnfold(s, "/");
    TranslatedUnfold(s, SUBFOLDERS);
  }

  lemma TranslatedUnfold(s: string, dir: string)
    requires FirstSlash(s) < |s|
    ensures var between := "/" + dir + "/";
            Join(Components(s), between) == s[..FirstSlash(s) + 1] + (dir + "/" + Join(Components(Next(s)), between))
  {
    hide FirstSlash, SkipSlashes, Join, Components, Next;
    JoinUnfold(s, "/" + dir + "/");
    TranslatedAt(s, FirstSlash(s), dir, Join(Components(Next(s)), "/" + dir + "/"));
  }

  lemma TranslatedAt(s: string, k: nat, dir: string, later: string)
    requires k < |s| && s[k] == '/'
    ensures s[..k] + ("/" + dir + "/") + later == s[..k + 1] + (dir + "/" + later)
  {
    SlashTaken(s, k);
    Translated(s[..k], dir, later);
  }

  lemma SlashTaken(s: string, k: nat)
    requires k < |s| && s[k] == '/'
    ensures s[..k + 1] == s[..k] + "/"
  {
  }

  lemma Translated(name: string, dir: string, later: string)
    ensures name + ("/" + dir + "/") + later == (name + "/") + (dir + "/" + later)
  {
  }

  lemma MangledWhole(s: string)
    requires FirstSlash(s) == |s|
    ensures Mangled(s) == s && Collapsed(s) == s && Added(s) == 0
  {
  }

  /** The position of the next slash, or the end of the text. */
  method FindSlash(s: string, p: nat) returns (newp: nat)
    requires p <= |s|
    ensures newp == p + FirstSlash(s[p..]) && newp <= |s|
  {
    newp := p;
    while newp < |s| && s[newp] != '/'
      invariant p <= newp <= |s|
      invariant FirstSlash(s[p..]) == newp - p + FirstSlash(s[newp..])
    {
      assert s[newp..][1..] == s[newp + 1..];
      newp := newp + 1;
    }
  }

  method SkipOver(s: string, p: nat) returns (newp: nat)
    requires p <= |s|
    ensures p <= newp <= |s| && s[newp..] == SkipSlashes(s[p..])
    ensures p < |s| && s[p] == '/' ==> p < newp
  {
    newp := p;
    while newp < |s| && s[newp] == '/'
      invariant p <= newp <= |s| && SkipSlashes(s[newp..]) == SkipSlashes(s[p..])
      invariant newp == p || p < newp
    {
      assert s[newp..][1..] == s[newp + 1..];
      newp := newp + 1;
    }
  }

  /** The first pass: how much the separators will add. */
  method CountAdded(s: string) returns (added: nat)
    ensures added == Added(s)
  {
    hide SkipSlashes, FirstSlash;
    added := 0;
    var p := 0;
    assert s[0..] == s;
    while true
      invariant 0 <= p <= |s| && added + Added(s[p..]) == Added(s)
      decreases |s| - p
    {
      var newp := FindSlash(s, p);
      if newp == |s| {
        return;
      }
      assert s[p..][newp - p..] == s[newp..];
      added := added + |SUBFOLDERS| + 1;
      p := SkipOver(s, newp);
    }
  }

  method CopyInto(buffer: array<char>, dp: nat, text: string) returns (next: nat)
    requires dp + |text| <= buffer.Length
    modifies buffer
    ensures next == dp + |text| && buffer[..next] == old(buffer[..dp]) + text
  {
    var i := 0;
    while i < |text|
      invariant 0 <= i <= |text| && buffer[..dp + i] == old(buffer[..dp]) + text[..i]
    {
      buffer[dp + i] := text[i];
      assert text[..i + 1] == text[..i] + [text[i]];
      i := i + 1;
    }
    assert text[..i] == text;
    next := dp + |text|;
  }

  lemma Appended(written: string, name: string, dir: string, later: string)
    ensures written + (name + (dir + "/" + later)) == written + name + dir + "/" + later
  {
  }

  /** The second pass: the path, each separator translated. */
  method WriteMangled(buffer: array<char>, start: nat, s: string) returns (dp: nat)
    requires start + |Mangled(s)| <= buffer.Length
    modifies buffer
    ensures dp == start + |Mangled(s)| && buffer[..dp] == old(buffer[..start]) + Mangled(s)
  {
    hide Mangled, SkipSlashes, FirstSlash, Collapsed, Added;
    dp := start;
    var p := 0;
    ghost var head := buffer[..start];
    assert s[0..] == s;
    while true
      invariant 0 <= p <= |s| && start <= dp <= buffer.Length
      invariant buffer[..dp] + Mangled(s[p..]) == head + Mangled(s)
      decreases |s| - p
    {
      var newp := FindSlash(s, p);
      ghost var so := buffer[..dp];
      if newp == |s| {
        MangledWhole(s[p..]);
        dp := CopyInto(buffer, dp, s[p..]);
        return;
      }
      MangledUnfold(s[p..]);
      assert s[p..][newp - p..] == s[newp..];
      ghost var later := Mangled(Next(s[p..]));
      var name := s[p..][..newp - p + 1];
      Appended(so, name, SUBFOLDERS, later);
      dp := CopyInto(buffer, dp, name);
      dp := CopyInto(buffer, dp, SUBFOLDERS);
      dp := CopyInto(buffer, dp, "/");
      p := SkipOver(s, newp);
    }
  }

  /**
   The physical path in a buffer of the size first computed: the second pass stays inside
   it, ends with a zero, and leaves exactly the surplus slashes unused.
   */
  method PathToPhysical(prefix: Option<string>, vpath: string) returns (ppath: array<char>, used: nat)
    ensures used < ppath.Length && ppath[..used] == Physical(prefix, vpath) && ppath[used] == '\0'
    ensures ppath.Length == used + 1 + Surplus(SkipSlashes(vpath))
  {
    hide Mangled, Collapsed, SkipSlashes, Surplus, Added;
    var skipped := SkipOver(vpath, 0);
    assert vpath[0..] == vpath;
    var path := vpath[skipped..];
    var head := if prefix.Some? then prefix.value else "";
    var added := CountAdded(path);
    MangledLength(path);
    ppath := new char[|path| + 1 + |head| + 1 + added];
    used := CopyInto(ppath, 0, head);
    used := CopyInto(ppath, used, "/");
    used := WriteMangled(ppath, used, path);
    ppath[used] := '\0';
  }
}
