/** Lexical handling of slash-separated paths in the manner of Go's
    `path/filepath` package on a Unix host: `Clean`, `Dir`, `Base` and
    `Join`. Nothing here touches a file system.

    `Clean` is described by what it computes: the path is cut at every
    separator into parts, the parts are folded left to right onto a stack
    (empty parts and "." vanish, ".." removes the previous element or, when
    there is none, is kept on a relative path and dropped at the root), and
    the stack is written back with a leading separator for a rooted path,
    "." standing for an empty relative result. */
module Paths {

  const Sep: char := '/'

  /** A path consisting of nothing but separators ("/", "//", ...). */
  predicate OnlySeparators(p: string) {
    |p| > 0 && forall k :: 0 <= k < |p| ==> p[k] == Sep
  }

  predicate Rooted(p: string) {
    |p| > 0 && p[0] == Sep
  }

  /** A name Clean keeps as it is: not empty, not ".", no separator. */
  predicate IsElement(c: string) {
    c != "" && c != "." && Sep !in c
  }

  predicate SeparatorFree(parts: seq<string>) {
    forall k :: 0 <= k < |parts| ==> Sep !in parts[k]
  }

  function LastSep(p: string): (i: nat)
    requires Sep in p
    ensures i < |p| && p[i] == Sep
    ensures forall k :: i < k < |p| ==> p[k] != Sep
    ensures Sep !in p[i + 1..]
  {
    if p[|p| - 1] == Sep then |p| - 1
    else
      var init := p[..|p| - 1];
      assert Sep in init by {
        var k :| 0 <= k < |p| && p[k] == Sep;
        assert init[k] == Sep;
      }
      var i := LastSep(init);
      assert p[i + 1..] == init[i + 1..] + [p[|p| - 1]];
      i
  }

  /** The last separator is the one with no separator after it. */
  lemma LastSepAt(p: string, i: nat)
    requires i < |p| && p[i] == Sep
    requires forall k :: i < k < |p| ==> p[k] != Sep
    ensures LastSep(p) == i
  {
  }

  /** The parts between separators, in order: "a//b/" gives ["a", "", "b", ""]. */
  function Split(p: string): (parts: seq<string>)
    ensures |parts| >= 1 && SeparatorFree(parts)
  {
    if Sep !in p then [p] else Split(p[..LastSep(p)]) + [p[LastSep(p) + 1..]]
  }

  /** The parts written back with one separator between neighbours. */
  function Joined(parts: seq<string>): (p: string)
    ensures |parts| >= 1 ==> |parts[0]| <= |p| && p[..|parts[0]|] == parts[0]
  {
    if |parts| == 0 then ""
    else if |parts| == 1 then parts[0]
    else Joined(parts[..|parts| - 1]) + [Sep] + parts[|parts| - 1]
  }

  /** The stacks Clean can produce: proper elements, every ".." before every
      other element, and no ".." at all under the root. */
  predicate Normalized(rooted: bool, st: seq<string>) {
    && (forall k :: 0 <= k < |st| ==> IsElement(st[k]))
    && (forall k, l :: 0 <= k < l < |st| && st[l] == ".." ==> st[k] == "..")
    && (rooted ==> forall k :: 0 <= k < |st| ==> st[k] != "..")
  }

  /** One part folded onto the stack. */
  function Step(rooted: bool, st: seq<string>, part: string): (st': seq<string>)
    requires Normalized(rooted, st) && Sep !in part
    ensures Normalized(rooted, st')
  {
    if part == "" || part == "." then st
    else if part == ".." then
      if |st| > 0 && st[|st| - 1] != ".." then st[..|st| - 1]
      else if rooted then st
      else st + [".."]
    else st + [part]
  }

  /** All parts folded onto an empty stack, left to right. */
  function Fold(rooted: bool, parts: seq<string>): (st: seq<string>)
    requires SeparatorFree(parts)
    ensures Normalized(rooted, st)
  {
    if parts == [] then []
    else Step(rooted, Fold(rooted, parts[..|parts| - 1]), parts[|parts| - 1])
  }

  function Render(rooted: bool, st: seq<string>): (p: string)
    requires Normalized(rooted, st)
    ensures p != "" && Rooted(p) == rooted
  {
    if rooted then [Sep] + Joined(st)
    else if st == [] then "."
    else Joined(st)
  }

  /** Go's filepath.Clean. */
  function Clean(p: string): string {
    Render(Rooted(p), Fold(Rooted(p), Split(p)))
  }

  /** Go's filepath.Dir: everything up to the last separator, cleaned. */
  function Dir(p: string): string {
    Clean(p[..if Sep in p then LastSep(p) + 1 else 0])
  }

  /** Go's filepath.Base with its trailing separators removed first. */
  function TrimTrailingSeps(p: string): (q: string)
    ensures |q| <= |p| && q == p[..|q|]
    ensures forall k :: |q| <= k < |p| ==> p[k] == Sep
    ensures q == [] || q[|q| - 1] != Sep
  {
    if p != [] && p[|p| - 1] == Sep then TrimTrailingSeps(p[..|p| - 1]) else p
  }

  /** Go's filepath.Base: the last element, "." for the empty path and "/"
      for a path of separators only. */
  function Base(p: string): string {
    if p == "" then "."
    else
      var q := TrimTrailingSeps(p);
      if q == "" then [Sep]
      else if Sep in q then q[LastSep(q) + 1..]
      else q
  }

  /** Go's filepath.Join for two elements: empty elements are skipped and the
      result is cleaned. */
  function Join(a: string, b: string): string {
    if a != "" then Clean(a + [Sep] + b)
    else if b != "" then Clean(b)
    else ""
  }

  // ---------------------------------------------------------------------
  // Splitting and joining

  lemma SplitSnoc(p: string, e: string)
    requires Sep !in e
    ensures Split(p + [Sep] + e) == Split(p) + [e]
  {
    var q := p + [Sep] + e;
    assert forall k :: |p| < k < |q| ==> q[k] == e[k - |p| - 1];
    LastSepAt(q, |p|);
    assert q[..|p|] == p;
    assert q[|p| + 1..] == e;
  }

  lemma {:induction false} SplitJoined(parts: seq<string>)
    requires |parts| >= 1 && SeparatorFree(parts)
    ensures Split(Joined(parts)) == parts
  {
    if |parts| > 1 {
      var init, last := parts[..|parts| - 1], parts[|parts| - 1];
      assert SeparatorFree(init);
      SplitJoined(init);
      assert Joined(parts) == Joined(init) + [Sep] + last;
      SplitSnoc(Joined(init), last);
      assert init + [last] == parts;
    }
  }

  lemma {:induction false} JoinedCons(x: string, parts: seq<string>)
    requires |parts| >= 1
    ensures Joined([x] + parts) == x + [Sep] + Joined(parts)
  {
    if |parts| > 1 {
      var init := parts[..|parts| - 1];
      JoinedCons(x, init);
      assert ([x] + parts)[..|parts|] == [x] + init;
    }
  }

  // ---------------------------------------------------------------------
  // Clean leaves its own results alone

  /** A prefix of a normalized stack is normalized. */
  lemma NormalizedPrefix(rooted: bool, st: seq<string>, n: nat)
    requires Normalized(rooted, st) && n <= |st|
    ensures Normalized(rooted, st[..n])
  {
  }

  /** Folding the next element of a normalized stack pushes it. */
  lemma StepPushes(rooted: bool, st: seq<string>, e: string)
    requires Normalized(rooted, st + [e])
    ensures Normalized(rooted, st) && Sep !in e
    ensures Step(rooted, st, e) == st + [e]
  {
    NormalizedPrefix(rooted, st + [e], |st|);
    assert (st + [e])[..|st|] == st;
    assert (st + [e])[|st|] == e;
    if e == ".." && |st| > 0 {
      assert (st + [e])[|st| - 1] == st[|st| - 1];
    }
  }

  /** Folding one more part steps the folded stack with it. */
  lemma FoldSnoc(rooted: bool, parts: seq<string>, e: string)
    requires SeparatorFree(parts) && Sep !in e
    ensures SeparatorFree(parts + [e])
    ensures Fold(rooted, parts + [e]) == Step(rooted, Fold(rooted, parts), e)
  {
    assert (parts + [e])[..|parts|] == parts;
  }

  /** An empty leading part folds to the empty stack. */
  lemma FoldLead(rooted: bool, lead: seq<string>)
    requires lead == [] || lead == [""]
    ensures SeparatorFree(lead) && Fold(rooted, lead) == []
  {
    assert lead != [] ==> lead[..0] == [];
  }

  /** Folding a normalized stack behind parts that fold to nothing gives the
      stack back. */
  lemma {:induction false} FoldNormalized(rooted: bool, st: seq<string>, pre: seq<string>)
    requires Normalized(rooted, st) && SeparatorFree(pre) && Fold(rooted, pre) == []
    ensures SeparatorFree(pre + st) && Fold(rooted, pre + st) == st
  {
    if st == [] {
      assert pre + st == pre;
    } else {
      var init := st[..|st| - 1];
      var last := st[|st| - 1];
      assert init + [last] == st;
      StepPushes(rooted, init, last);
      FoldNormalized(rooted, init, pre);
      FoldSnoc(rooted, pre + init, last);
      assert pre + init + [last] == pre + st;
    }
  }

  /** The root "/" is cut into two empty parts, which fold to nothing. */
  lemma FoldSplitRoot()
    ensures Split([Sep]) == ["", ""]
    ensures Fold(true, Split([Sep])) == []
  {
    SplitSnoc("", "");
    assert [Sep] == "" + [Sep] + "";
    assert Split("") == [""];
    assert ["", ""][..1] == [""];
    FoldLead(true, [""]);
  }

  lemma FoldSplitRooted(st: seq<string>)
    requires Normalized(true, st) && st != []
    ensures Fold(true, Split(Render(true, st))) == st
  {
    JoinedCons("", st);
    assert Render(true, st) == Joined([""] + st);
    SplitJoined([""] + st);
    FoldLead(true, [""]);
    FoldNormalized(true, st, [""]);
  }

  lemma FoldSplitRelative(st: seq<string>)
    requires Normalized(false, st) && st != []
    ensures Fold(false, Split(Render(false, st))) == st
  {
    SplitJoined(st);
    FoldLead(false, []);
    FoldNormalized(false, st, []);
    assert [] + st == st;
  }

  lemma FoldSplitRender(rooted: bool, st: seq<string>)
    requires Normalized(rooted, st)
    ensures Fold(rooted, Split(Render(rooted, st))) == st
  {
    if st == [] {
      if rooted {
        FoldSplitRoot();
      } else {
        assert Split(".") == ["."];
      }
    } else {
      if rooted {
        FoldSplitRooted(st);
      } else {
        FoldSplitRelative(st);
      }
    }
  }

  /** Cleaning a clean path, with or without a trailing separator, gives it back. */
  lemma CleanRender(rooted: bool, st: seq<string>)
    requires Normalized(rooted, st)
    ensures Clean(Render(rooted, st)) == Render(rooted, st)
    ensures Clean(Render(rooted, st) + [Sep]) == Render(rooted, st)
  {
    var p := Render(rooted, st);
    FoldSplitRender(rooted, st);
    SplitSnoc(p, "");
    assert p + [Sep] == p + [Sep] + "";
    var parts := Split(p) + [""];
    assert parts[..|parts| - 1] == Split(p);
  }

  lemma CleanIdempotent(p: string)
    ensures Clean(Clean(p)) == Clean(p)
  {
    CleanRender(Rooted(p), Fold(Rooted(p), Split(p)));
  }

  // ---------------------------------------------------------------------
  // Dir and Base of a path ending in one element

  lemma DirSnoc(pre: string, e: string)
    requires Sep !in e && (pre == "" || pre[|pre| - 1] == Sep)
    ensures Dir(pre + e) == Clean(pre)
  {
    var p := pre + e;
    if pre == "" {
      assert p == e;
    } else {
      assert forall k :: |pre| <= k < |p| ==> p[k] == e[k - |pre|];
      LastSepAt(p, |pre| - 1);
      assert p[..|pre|] == pre;
    }
  }

  lemma BaseSnoc(pre: string, e: string)
    requires IsElement(e) && (pre == "" || pre[|pre| - 1] == Sep)
    ensures Base(pre + e) == e
  {
    var p := pre + e;
    assert p[|p| - 1] == e[|e| - 1];
    assert TrimTrailingSeps(p) == p;
    if pre == "" {
      assert p == e;
    } else {
      assert forall k :: |pre| <= k < |p| ==> p[k] == e[k - |pre|];
      LastSepAt(p, |pre| - 1);
      assert p[|pre|..] == e;
    }
  }

  /** The base of a name that is not all separators is one non-empty element
      free of separators. */
  lemma BaseOfName(p: string)
    requires !OnlySeparators(p)
    ensures Base(p) != "" && Sep !in Base(p)
  {
  }

  lemma BaseOfSeparators(p: string)
    requires OnlySeparators(p)
    ensures Base(p) == [Sep]
  {
  }

  /** A path of separators only is rooted and folds to the empty stack. */
  lemma {:induction false} FoldSeparators(p: string)
    requires OnlySeparators(p)
    ensures Rooted(p) && Fold(true, Split(p)) == []
    decreases |p|
  {
    if |p| == 1 {
      assert p == [Sep];
      FoldSplitRoot();
    } else {
      var q := p[..|p| - 1];
      assert OnlySeparators(q);
      FoldSeparators(q);
      SplitSnoc(q, "");
      assert p == q + [Sep] + "";
      FoldSnoc(true, Split(q), "");
    }
  }

  /** Dir and Base of a path of separators only are both the root. */
  lemma SeparatorsDirBase(p: string)
    requires OnlySeparators(p)
    ensures Dir(p) == [Sep] && Base(p) == [Sep]
  {
    FoldSeparators(p);
    LastSepAt(p, |p| - 1);
    assert p[..|p|] == p;
    BaseOfSeparators(p);
  }

  /** Cleaning a clean directory joined with one element appends the element. */
  lemma JoinRender(rooted: bool, st: seq<string>, e: string)
    requires Normalized(rooted, st) && IsElement(e) && e != ".."
    ensures Normalized(rooted, st + [e])
    ensures Join(Render(rooted, st), e) == Render(rooted, st + [e])
  {
    var d := Render(rooted, st);
    var q := d + [Sep] + e;
    assert Rooted(q) == rooted;
    SplitSnoc(d, e);
    FoldSplitRender(rooted, st);
    var parts := Split(d) + [e];
    assert parts[..|parts| - 1] == Split(d);
  }

  /** What a clean path ending in an element holds before that element. */
  function DirPrefix(rooted: bool, st: seq<string>): string
    requires Normalized(rooted, st)
  {
    if st != [] then Render(rooted, st) + [Sep]
    else if rooted then [Sep]
    else ""
  }

  lemma RenderSnoc(rooted: bool, st: seq<string>, e: string)
    requires Normalized(rooted, st + [e])
    ensures Normalized(rooted, st) && IsElement(e)
    ensures Render(rooted, st + [e]) == DirPrefix(rooted, st) + e
  {
    var st' := st + [e];
    StepPushes(rooted, st, e);
    assert e == st'[|st|];
    if st != [] {
      assert st'[..|st'| - 1] == st;
    }
  }

  lemma CleanDirPrefix(rooted: bool, st: seq<string>)
    requires Normalized(rooted, st)
    ensures Clean(DirPrefix(rooted, st)) == Render(rooted, st)
  {
    if st != [] || rooted {
      CleanRender(rooted, st);
    } else {
      assert Split("") == [""];
    }
  }

  /** Dir and Base of a clean path that ends in an element. */
  lemma DirBaseRender(rooted: bool, st: seq<string>, e: string)
    requires Normalized(rooted, st + [e])
    ensures Normalized(rooted, st)
    ensures Dir(Render(rooted, st + [e])) == Render(rooted, st)
    ensures Base(Render(rooted, st + [e])) == e
  {
    RenderSnoc(rooted, st, e);
    var parent := DirPrefix(rooted, st);
    CleanDirPrefix(rooted, st);
    DirSnoc(parent, e);
    BaseSnoc(parent, e);
  }

  /** Joining a directory produced by Dir with one element places the element
      in that directory: Dir gives the directory back and Base the element. */
  lemma JoinDirElement(name: string, e: string)
    requires IsElement(e) && e != ".."
    ensures Dir(Join(Dir(name), e)) == Dir(name)
    ensures Base(Join(Dir(name), e)) == e
  {
    var pre := name[..if Sep in name then LastSep(name) + 1 else 0];
    var rooted := Rooted(pre);
    var st := Fold(rooted, Split(pre));
    assert Dir(name) == Render(rooted, st);
    JoinRender(rooted, st, e);
    DirBaseRender(rooted, st, e);
  }
}
