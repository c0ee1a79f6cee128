/** The draft pull pipeline of model/puller2.go: the name of the temporary
    file a pull writes into, and one cycle of the queuer that turns the
    files a repository needs into copy and pull requests.

    The queuer's collaborators (the model's local version, the need query,
    the current local file, the block diff and the opening of the temporary
    file) are passed in; the channels become one log of the requests sent,
    in the order they are sent. */
module Puller {
  import Paths
  import Decimal
  import Permutation

  /** The capacity the collection of needed files starts with. As written it
      does not bound how many files are collected. */
  const PullBatchSize: nat := 100

  /** Every temporary file name starts with this. */
  const TempPrefix: string := ".syncthing."

  datatype BlockInfo = BlockInfo(offset: int, size: nat, hash: seq<bv8>)

  /** The fields of a file record that the puller reads. */
  datatype FileInfo = FileInfo(name: string, version: Decimal.Uint64, blocks: seq<BlockInfo>)

  /** A byte range of the file to copy or pull. */
  datatype Segment = Segment(offset: int, size: int)

  /** An abort channel. Every `new AbortSignal()` is a channel no one else
      holds, as every `make(chan struct{})` is. */
  class AbortSignal {
    constructor () {}
  }

  /** A request to fill `blocks` of `tempFile` for the target `global`. */
  datatype Request<H> = Request(global: FileInfo, tempFile: H, blocks: seq<Segment>, abort: AbortSignal)

  datatype Option<T> = None | Some(value: T)

  /** What a copier or puller reports for one request; `err` is None on
      success. */
  datatype Result<H> = Result(global: FileInfo, tempFile: H, err: Option<string>)

  /** The channel a request is sent on. */
  datatype Channel = Copy | Pull

  datatype Send<H> = Send(channel: Channel, req: Request<H>)

  /** What the queuer asks of the rest of the program: the current local
      record of a name, the block diff of a local against a global block
      list (segments to copy, segments to pull), and the temporary file
      opened for a target. */
  datatype Collaborators<H> = Collaborators(
    currentFile: string -> FileInfo,
    blockDiff: (seq<BlockInfo>, seq<BlockInfo>) -> (seq<Segment>, seq<Segment>),
    openTemp: FileInfo -> H)

  // ---------------------------------------------------------------------
  // Temporary file names

  /** The temporary file of `f`: in the directory of `f.name`, named
      ".syncthing.<base>.<version>". */
  function TempName(f: FileInfo): (r: string)
    ensures r != "" && Paths.Rooted(r) == Paths.Rooted(f.name)
  {
    Paths.Join(Paths.Dir(f.name), TempPrefix + Paths.Base(f.name) + "." + Decimal.Render(f.version))
  }

  lemma TempElement(f: FileInfo)
    requires !Paths.OnlySeparators(f.name)
    ensures var e := TempPrefix + Paths.Base(f.name) + "." + Decimal.Render(f.version);
      Paths.IsElement(e) && e != ".."
  {
  }

  /** The temporary file lies in the same directory as its target. */
  lemma TempNameInDir(f: FileInfo)
    requires !Paths.OnlySeparators(f.name)
    ensures Paths.Dir(TempName(f)) == Paths.Dir(f.name)
  {
    TempElement(f);
    Paths.JoinDirElement(f.name, TempPrefix + Paths.Base(f.name) + "." + Decimal.Render(f.version));
  }

  /** The base of the temporary file is ".syncthing.", the target's base, a
      dot and the version in decimal; so it is a hidden name. */
  lemma TempNameBase(f: FileInfo)
    requires !Paths.OnlySeparators(f.name)
    ensures Paths.Base(TempName(f)) == ".syncthing." + Paths.Base(f.name) + "." + Decimal.Render(f.version)
    ensures TempPrefix <= Paths.Base(TempName(f)) && Paths.Base(TempName(f))[0] == '.'
  {
    TempElement(f);
    Paths.JoinDirElement(f.name, TempPrefix + Paths.Base(f.name) + "." + Decimal.Render(f.version));
  }

  /** The temporary file depends on nothing but the name and the version, so
      two pulls of the same file and version share it. */
  lemma TempNameDeterministic(f: FileInfo, g: FileInfo)
    requires f.name == g.name && f.version == g.version
    ensures TempName(f) == TempName(g)
  {
  }

  /** Decimal texts behind a common head determine the versions. */
  lemma RenderAfterHead(head: string, m: Decimal.Uint64, n: Decimal.Uint64)
    requires head + Decimal.Render(m) == head + Decimal.Render(n)
    ensures m == n
  {
    assert Decimal.Render(m) == (head + Decimal.Render(m))[|head|..];
    assert Decimal.Render(n) == (head + Decimal.Render(n))[|head|..];
    Decimal.RenderInjective(m, n);
  }

  lemma TempNameInjectiveOnName(f: FileInfo, g: FileInfo)
    requires f.name == g.name && !Paths.OnlySeparators(f.name)
    requires TempName(f) == TempName(g)
    ensures f.version == g.version
  {
    TempNameBase(f);
    TempNameBase(g);
    RenderAfterHead(TempPrefix + Paths.Base(f.name) + ".", f.version, g.version);
  }

  /** For a name of separators only, the temporary file is a fixed head
      followed by the decimal version. */
  lemma TempNameOfSeparatorsText(f: FileInfo)
    requires Paths.OnlySeparators(f.name)
    ensures TempName(f) == SeparatorsTempHead() + Decimal.Render(f.version)
  {
    TempNameOfSeparators(f);
    Regroup("/" + TempPrefix + "/", Decimal.Render(f.version));
  }

  function SeparatorsTempHead(): string {
    "/" + TempPrefix + "/" + "."
  }

  lemma Regroup(a: string, d: string)
    ensures a + ("." + d) == a + "." + d
  {
  }

  lemma TempNameInjectiveOnSeparators(f: FileInfo, g: FileInfo)
    requires f.name == g.name && Paths.OnlySeparators(f.name)
    requires TempName(f) == TempName(g)
    ensures f.version == g.version
  {
    TempNameOfSeparatorsText(f);
    TempNameOfSeparatorsText(g);
    RenderAfterHead(SeparatorsTempHead(), f.version, g.version);
  }

  /** Pulls of different versions of one file never share a temporary file. */
  lemma TempNameInjective(f: FileInfo, g: FileInfo)
    requires f.name == g.name && f.version != g.version
    ensures TempName(f) != TempName(g)
  {
    if TempName(f) == TempName(g) {
      if Paths.OnlySeparators(f.name) {
        TempNameInjectiveOnSeparators(f, g);
      } else {
        TempNameInjectiveOnName(f, g);
      }
    }
  }

  lemma SplitUnderRoot(x: string, y: string)
    requires Paths.Sep !in x && Paths.Sep !in y
    ensures Paths.Split("/" + "/" + x + "/" + y) == ["", "", x, y]
  {
    Paths.SplitSnoc("", "");
    Paths.SplitSnoc("/", x);
    Paths.SplitSnoc("/" + "/" + x, y);
    assert "" + [Paths.Sep] + "" == "/";
    assert "/" + [Paths.Sep] + x == "/" + "/" + x;
    assert Paths.Split("") == [""];
  }

  lemma FoldUnderRoot(x: string, y: string)
    requires Paths.IsElement(x) && x != ".." && Paths.IsElement(y) && y != ".."
    ensures Paths.Fold(true, ["", "", x, y]) == [x, y]
  {
    var p1, p2, p3, p4 := [""], ["", ""], ["", "", x], ["", "", x, y];
    assert Paths.Fold(true, p1) == [] by { assert p1[..0] == []; }
    assert Paths.Fold(true, p2) == [] by { assert p2[..1] == p1; }
    assert Paths.Fold(true, p3) == [x] by { assert p3[..2] == p2; }
    assert p4[..3] == p3;
  }

  /** "/x/y" for two elements x and y is a clean rooted path. */
  lemma RenderUnderRoot(x: string, y: string)
    requires Paths.IsElement(x) && x != ".." && Paths.IsElement(y) && y != ".."
    ensures Paths.Normalized(true, [x, y])
    ensures Paths.Render(true, [x, y]) == "/" + x + "/" + y
  {
    var st := [x, y];
    assert st[..1] == [x];
    assert Paths.Joined(st) == x + [Paths.Sep] + y;
  }

  /** Cleaning "//x/y" for two elements x and y gives "/x/y", whose
      directory is "/x". */
  lemma CleanUnderRoot(x: string, y: string)
    requires Paths.IsElement(x) && x != ".." && Paths.IsElement(y) && y != ".."
    ensures Paths.Clean("/" + "/" + x + "/" + y) == "/" + x + "/" + y
    ensures Paths.Dir("/" + x + "/" + y) == "/" + x
    ensures Paths.Base("/" + x + "/" + y) == y
  {
    var p := "/" + "/" + x + "/" + y;
    SplitUnderRoot(x, y);
    FoldUnderRoot(x, y);
    RenderUnderRoot(x, y);
    assert Paths.Rooted(p);
    assert [x] + [y] == [x, y];
    Paths.DirBaseRender(true, [x], y);
    assert Paths.Render(true, [x]) == "/" + x;
  }

  /** A dot followed by a decimal version is one plain path element. */
  lemma DotVersionElement(v: Decimal.Uint64)
    ensures Paths.IsElement("." + Decimal.Render(v)) && "." + Decimal.Render(v) != ".."
  {
    var d := Decimal.Render(v);
    var y := "." + d;
    forall k | 1 <= k < |y| ensures y[k] != Paths.Sep {
      assert Decimal.IsDigit(d[k - 1]);
    }
    assert y[1] == d[0];
  }

  lemma PrefixElement()
    ensures Paths.IsElement(TempPrefix) && TempPrefix != ".."
  {
  }

  lemma TempNameOfSeparatorsJoin(f: FileInfo)
    requires Paths.OnlySeparators(f.name)
    ensures Paths.Dir(f.name) == "/" && Paths.Base(f.name) == "/"
    ensures TempName(f) == Paths.Clean("/" + "/" + TempPrefix + "/" + ("." + Decimal.Render(f.version)))
  {
    Paths.SeparatorsDirBase(f.name);
    var x, y := TempPrefix, "." + Decimal.Render(f.version);
    var e := TempPrefix + Paths.Base(f.name) + "." + Decimal.Render(f.version);
    assert e == x + "/" + y;
    assert "/" + "/" + e == "/" + "/" + x + "/" + y;
  }

  /** For a name of separators only ("/", "//", ...) Dir and Base are both
      "/", so the temporary file is "/.syncthing./.<version>": it lies in the
      sub-directory "/.syncthing." and its base is "." and the version. */
  lemma TempNameOfSeparators(f: FileInfo)
    requires Paths.OnlySeparators(f.name)
    ensures Paths.Dir(f.name) == "/" && Paths.Base(f.name) == "/"
    ensures TempName(f) == "/" + TempPrefix + "/" + ("." + Decimal.Render(f.version))
    ensures Paths.Dir(TempName(f)) == "/" + TempPrefix
    ensures Paths.Base(TempName(f)) == "." + Decimal.Render(f.version)
  {
    var y := "." + Decimal.Render(f.version);
    TempNameOfSeparatorsJoin(f);
    DotVersionElement(f.version);
    PrefixElement();
    CleanUnderRoot(TempPrefix, y);
  }

  // ---------------------------------------------------------------------
  // One queuer cycle

  /** The two requests sent for one file: a copy request carrying the
      segments the block diff says to copy, then a pull request carrying the
      segments it says to pull, both for `f`, its temporary file and `abort`. */
  function JobSends<H>(f: FileInfo, env: Collaborators<H>, abort: AbortSignal): (sends: seq<Send<H>>)
    ensures |sends| == 2 && sends[0].channel == Copy && sends[1].channel == Pull
    ensures sends[0].req.global == f && sends[1].req.global == f
    ensures sends[0].req.tempFile == sends[1].req.tempFile == env.openTemp(f)
    ensures sends[0].req.abort == sends[1].req.abort == abort
    ensures var diff := env.blockDiff(env.currentFile(f.name).blocks, f.blocks);
      sends[0].req.blocks == diff.0 && sends[1].req.blocks == diff.1
  {
    var local := env.currentFile(f.name);
    var diff := env.blockDiff(local.blocks, f.blocks);
    var tempFile := env.openTemp(f);
    [Send(Copy, Request(f, tempFile, diff.0, abort)), Send(Pull, Request(f, tempFile, diff.1, abort))]
  }

  /** The requests a cycle sends when it visits `files` in the order `perm`,
      creating `aborts[k]` for its k-th visit. */
  function CycleSends<H>(files: seq<FileInfo>, perm: seq<int>, aborts: seq<AbortSignal>, env: Collaborators<H>): (sends: seq<Send<H>>)
    requires Permutation.Bounded(perm, |files|) && |aborts| == |perm|
    ensures |sends| == 2 * |perm|
  {
    if perm == [] then []
    else
      var n := |perm| - 1;
      CycleSends(files, perm[..n], aborts[..n], env) + JobSends(files[perm[n]], env, aborts[n])
  }

  /** Visiting one more file appends that file's two sends. */
  lemma CycleSendsSnoc<H>(log: seq<Send<H>>, files: seq<FileInfo>, perm: seq<int>, aborts: seq<AbortSignal>, env: Collaborators<H>, k: nat, abort: AbortSignal)
    requires Permutation.Bounded(perm, |files|) && k < |perm| && |aborts| == k
    ensures Permutation.Bounded(perm[..k], |files|) && Permutation.Bounded(perm[..k + 1], |files|)
    ensures var f := files[perm[k]];
      var diff := env.blockDiff(env.currentFile(f.name).blocks, f.blocks);
      log + CycleSends(files, perm[..k], aborts, env)
        + [Send(Copy, Request(f, env.openTemp(f), diff.0, abort))]
        + [Send(Pull, Request(f, env.openTemp(f), diff.1, abort))]
      == log + CycleSends(files, perm[..k + 1], aborts + [abort], env)
  {
    assert perm[..k + 1][..k] == perm[..k];
    assert (aborts + [abort])[..k] == aborts;
  }

  /** The k-th file visited gets sends 2k and 2k + 1: a copy request
      immediately followed by a pull request, both for that file, sharing its
      temporary file and the k-th abort signal, and carrying the two halves of
      the block diff of the current local blocks against the file's blocks. */
  lemma {:induction false} CycleSendsAt<H>(files: seq<FileInfo>, perm: seq<int>, aborts: seq<AbortSignal>, env: Collaborators<H>, k: nat)
    requires Permutation.Bounded(perm, |files|) && |aborts| == |perm| && k < |perm|
    ensures var out := CycleSends(files, perm, aborts, env);
      var f := files[perm[k]];
      var diff := env.blockDiff(env.currentFile(f.name).blocks, f.blocks);
      && out[2 * k].channel == Copy && out[2 * k + 1].channel == Pull
      && out[2 * k].req.global == f && out[2 * k + 1].req.global == f
      && out[2 * k].req.tempFile == env.openTemp(f) && out[2 * k + 1].req.tempFile == env.openTemp(f)
      && out[2 * k].req.abort == aborts[k] && out[2 * k + 1].req.abort == aborts[k]
      && out[2 * k].req.blocks == diff.0 && out[2 * k + 1].req.blocks == diff.1
  {
    var n := |perm| - 1;
    if k < n {
      CycleSendsAt(files, perm[..n], aborts[..n], env, k);
    }
  }

  /** The targets of the requests sent on `channel`, in the order sent. */
  function Targets<H>(out: seq<Send<H>>, channel: Channel): (fs: seq<FileInfo>)
    ensures |fs| <= |out|
  {
    if out == [] then []
    else
      var last := out[|out| - 1];
      Targets(out[..|out| - 1], channel) + (if last.channel == channel then [last.req.global] else [])
  }

  lemma {:induction false} TargetsAppend<H>(a: seq<Send<H>>, b: seq<Send<H>>, channel: Channel)
    ensures Targets(a + b, channel) == Targets(a, channel) + Targets(b, channel)
  {
    if b != [] {
      var n := |b| - 1;
      TargetsAppend(a, b[..n], channel);
      assert (a + b)[..|a + b| - 1] == a + b[..n];
    } else {
      assert a + b == a;
    }
  }

  /** One visit targets its file once on each channel. */
  lemma JobTargets<H>(f: FileInfo, env: Collaborators<H>, abort: AbortSignal)
    ensures Targets(JobSends(f, env, abort), Copy) == [f]
    ensures Targets(JobSends(f, env, abort), Pull) == [f]
  {
    var job := JobSends(f, env, abort);
    assert job[..1][..0] == [];
  }

  /** A cycle sends one copy request and one pull request per visited file,
      in the order of the visit. */
  lemma {:induction false} CycleTargets<H>(files: seq<FileInfo>, perm: seq<int>, aborts: seq<AbortSignal>, env: Collaborators<H>)
    requires Permutation.Bounded(perm, |files|) && |aborts| == |perm|
    ensures Targets(CycleSends(files, perm, aborts, env), Copy) == Permutation.Reorder(files, perm)
    ensures Targets(CycleSends(files, perm, aborts, env), Pull) == Permutation.Reorder(files, perm)
  {
    if perm != [] {
      var n := |perm| - 1;
      var f := files[perm[n]];
      var job := JobSends(f, env, aborts[n]);
      CycleTargets(files, perm[..n], aborts[..n], env);
      TargetsAppend(CycleSends(files, perm[..n], aborts[..n], env), job, Copy);
      TargetsAppend(CycleSends(files, perm[..n], aborts[..n], env), job, Pull);
      JobTargets(f, env, aborts[n]);
      assert Permutation.Reorder(files, perm) == Permutation.Reorder(files, perm[..n]) + [f];
    }
  }

  /** When the visiting order is a permutation, every needed file gets
      exactly one copy request and exactly one pull request. */
  lemma EveryNeededFileOnce<H>(files: seq<FileInfo>, perm: seq<int>, aborts: seq<AbortSignal>, env: Collaborators<H>)
    requires Permutation.IsPermutation(perm, |files|) && |aborts| == |perm|
    ensures multiset(Targets(CycleSends(files, perm, aborts, env), Copy)) == multiset(files)
    ensures multiset(Targets(CycleSends(files, perm, aborts, env), Pull)) == multiset(files)
  {
    CycleTargets(files, perm, aborts, env);
    Permutation.ReorderPermutes(files, perm);
  }

  /** The queuer's state across cycles. */
  class Queuer<H> {
    /** The local version seen at the previous cycle. Nothing assigns it after
        its zero initialisation. */
    var prevVer: Decimal.Uint64
    /** Every request sent so far on the copy and pull channels, in the order
        sent. */
    var sent: seq<Send<H>>

    constructor ()
      ensures prevVer == 0 && sent == []
    {
      prevVer := 0;
      sent := [];
    }

    /** One cycle: skipped when the local version `curVer` equals `prevVer`;
        otherwise every file of `needFiles` is collected and the files are
        visited in the order `perm`, each getting a copy request and then a
        pull request that share a new abort signal. */
    method Cycle(curVer: Decimal.Uint64, needFiles: seq<FileInfo>, perm: seq<int>, env: Collaborators<H>)
      returns (files: seq<FileInfo>, aborts: seq<AbortSignal>)
      requires curVer != prevVer ==> Permutation.IsPermutation(perm, |needFiles|)
      modifies this
      ensures prevVer == old(prevVer)
      ensures curVer == prevVer ==> files == [] && aborts == [] && sent == old(sent)
      ensures curVer != prevVer ==> files == needFiles && |aborts| == |files|
      ensures curVer != prevVer ==> sent == old(sent) + CycleSends(files, perm, aborts, env)
      ensures forall k :: 0 <= k < |aborts| ==> fresh(aborts[k])
      ensures forall k, l :: 0 <= k < l < |aborts| ==> aborts[k] != aborts[l]
    {
      files, aborts := [], [];
      if curVer == prevVer {
        return;
      }

      var i := 0;
      while i < |needFiles|
        invariant 0 <= i <= |needFiles|
        invariant files == needFiles[..i]
      {
        files := files + [needFiles[i]];
        i := i + 1;
      }
      assert files == needFiles;

      var k := 0;
      while k < |perm|
        invariant 0 <= k <= |perm| && |aborts| == k
        invariant prevVer == old(prevVer)
        invariant sent == old(sent) + CycleSends(files, perm[..k], aborts, env)
        invariant forall j :: 0 <= j < k ==> fresh(aborts[j])
        invariant forall j, l :: 0 <= j < l < k ==> aborts[j] != aborts[l]
      {
        var f := files[perm[k]];
        var local := env.currentFile(f.name);
        var (have, need) := env.blockDiff(local.blocks, f.blocks);
        var tempFile := env.openTemp(f);
        var abort := new AbortSignal();
        CycleSendsSnoc(old(sent), files, perm, aborts, env, k, abort);
        sent := sent + [Send(Copy, Request(f, tempFile, have, abort))];
        sent := sent + [Send(Pull, Request(f, tempFile, need, abort))];
        aborts := aborts + [abort];
        k := k + 1;
      }
      assert perm[..|perm|] == perm;
    }
  }

  /** Two cycles that see the same local version: since `prevVer` keeps its
      zero value, the second is skipped only when that version is zero;
      otherwise every needed file is queued twice. */
  method TwoCyclesSameVersion<H>(curVer: Decimal.Uint64, needFiles: seq<FileInfo>, perm: seq<int>, env: Collaborators<H>)
    returns (sent: seq<Send<H>>)
    requires Permutation.IsPermutation(perm, |needFiles|)
    ensures curVer == 0 ==> sent == []
    ensures curVer != 0 ==> |sent| == 4 * |needFiles|
    ensures curVer != 0 ==> Targets(sent, Copy) == Permutation.Reorder(needFiles, perm) + Permutation.Reorder(needFiles, perm)
  {
    var q := new Queuer<H>();
    var files1, aborts1 := q.Cycle(curVer, needFiles, perm, env);
    var files2, aborts2 := q.Cycle(curVer, needFiles, perm, env);
    sent := q.sent;
    if curVer != 0 {
      var first := CycleSends(needFiles, perm, aborts1, env);
      var second := CycleSends(needFiles, perm, aborts2, env);
      assert sent == [] + first + second;
      CycleTargets(needFiles, perm, aborts1, env);
      CycleTargets(needFiles, perm, aborts2, env);
      TargetsAppend(first, second, Copy);
      assert [] + first == first;
    }
  }
}
