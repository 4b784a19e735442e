/**
 * The tree collector: `copyfile`, the guarded transfer of one file into the
 * destination directory, and `rcopy`, which walks the source tree bottom-up,
 * keeps the file names the glob accepts and places each under the first
 * candidate name that is still free.
 *
 * The file system is abstract: the destination directory is a map from bare
 * names to contents, the source tree a map from (directory, name) pairs to
 * contents, and standard output a list of announced transfers.
 */
module Collector {
  import opened PathNames
  import opened Sequencer

  type Bytes = seq<bv8>

  /** A file found by the walk: the directory it lies in and its bare name. */
  datatype SrcPath = SrcPath(root: string, name: string)

  /** One directory as the walk reports it: its path and its file names, in listing order. */
  datatype Listing = Listing(root: string, names: seq<string>)

  datatype Options = Options(move: bool, quiet: bool, dryrun: bool)

  datatype Verb = MoveVerb | CopyVerb

  /** A printed progress line, `"<Verb> <src> -> <dst>"`. */
  datatype Line = Line(verb: Verb, src: SrcPath, dst: string)

  /** Destination directory, source tree and the lines printed so far. */
  datatype FsState = FsState(dest: map<string, Bytes>, sources: map<SrcPath, Bytes>, out: seq<Line>)

  /**
   * What one call of `copyfile` ends in: `Exists` is its `False` return,
   * `Done` its `True` return, `Raised` the error the transfer raises when the
   * source file is missing.
   */
  datatype Outcome = Exists | Done | Raised

  datatype Step = Step(fs: FsState, outcome: Outcome)

  function VerbOf(move: bool): Verb
  {
    if move then MoveVerb else CopyVerb
  }

  /** The line a transfer prints, or none when quiet. */
  function Announce(o: Options, src: SrcPath, dst: string): seq<Line>
  {
    if o.quiet then [] else [Line(VerbOf(o.move), src, dst)]
  }

  /** States agree on the destination and the sources (the printed lines may differ). */
  predicate SameFiles(s: FsState, t: FsState)
  {
    s.dest == t.dest && s.sources == t.sources
  }

  /** Every file of `s`'s destination is still in `t`'s with the same contents. */
  predicate KeepsDest(s: FsState, t: FsState)
  {
    forall n :: n in s.dest ==> n in t.dest && t.dest[n] == s.dest[n]
  }

  /** `copyfile(src, destDir / dst, move, quiet, dryrun)` on an abstract file system. */
  function Transfer(s: FsState, src: SrcPath, dst: string, o: Options): (r: Step)
    ensures r.outcome == Exists <==> dst in s.dest
    ensures r.outcome == Exists ==> r.fs == s
    ensures r.outcome == Raised <==> dst !in s.dest && !o.dryrun && src !in s.sources
    ensures r.outcome != Exists ==> r.fs.out == s.out + Announce(o, src, dst)
    ensures r.outcome == Raised || o.dryrun ==> SameFiles(r.fs, s)
    ensures r.outcome == Done && !o.dryrun ==>
      src in s.sources && r.fs.dest == s.dest[dst := s.sources[src]]
      && r.fs.sources == (if o.move then s.sources - {src} else s.sources)
    ensures KeepsDest(s, r.fs)
  {
    if dst in s.dest then Step(s, Exists)
    else
      var out := s.out + Announce(o, src, dst);
      if o.dryrun then Step(s.(out := out), Done)
      else if src !in s.sources then Step(s.(out := out), Raised)
      else
        var sources := if o.move then s.sources - {src} else s.sources;
        Step(FsState(s.dest[dst := s.sources[src]], sources, out), Done)
  }

  /** The first `k` candidates of `name`, as a set. */
  function Cands(name: string, k: nat): set<string>
  {
    if k == 0 then {} else Cands(name, k - 1) + {NameAt(name, k - 1)}
  }

  lemma {:induction false} CandsOmitsLater(name: string, k: nat, m: nat)
    requires k <= m
    ensures NameAt(name, m) !in Cands(name, k)
  {
    if k > 0 {
      CandsOmitsLater(name, k - 1, m);
      if NameAt(name, m) == NameAt(name, k - 1) {
        NameAtInjective(name, m, k - 1);
      }
    }
  }

  lemma {:induction false} CandsSize(name: string, k: nat)
    ensures |Cands(name, k)| == k
  {
    if k > 0 {
      CandsSize(name, k - 1);
      CandsOmitsLater(name, k - 1, k - 1);
    }
  }

  lemma {:induction false} CandsWithin(taken: set<string>, name: string, k: nat)
    requires forall m :: 0 <= m < k ==> NameAt(name, m) in taken
    ensures Cands(name, k) <= taken
  {
    if k > 0 {
      CandsWithin(taken, name, k - 1);
    }
  }

  lemma {:induction false} SubsetSize<T>(a: set<T>, b: set<T>)
    requires a <= b
    ensures |a| <= |b|
  {
    if a != {} {
      var x :| x in a;
      SubsetSize(a - {x}, b - {x});
    }
  }

  /**
   * Pigeonhole: the candidates of one name are pairwise different, so if the
   * first `k` of them are all taken, there are at least `k` taken names.
   */
  lemma TakenBound(taken: set<string>, name: string, k: nat)
    requires forall m :: 0 <= m < k ==> NameAt(name, m) in taken
    ensures k <= |taken|
  {
    CandsWithin(taken, name, k);
    CandsSize(name, k);
    SubsetSize(Cands(name, k), taken);
  }

  /**
   * The lowest index from `k` on whose candidate is not taken, given that
   * those below `k` are.
   */
  function FirstFree(taken: set<string>, name: string, k: nat): (r: nat)
    requires forall m :: 0 <= m < k ==> NameAt(name, m) in taken
    ensures k <= r
    ensures NameAt(name, r) !in taken
    ensures forall m :: 0 <= m < r ==> NameAt(name, m) in taken
    decreases |taken| - k
  {
    if NameAt(name, k) !in taken then k
    else
      assert forall m :: 0 <= m < k + 1 ==> NameAt(name, m) in taken;
      TakenBound(taken, name, k + 1);
      FirstFree(taken, name, k + 1)
  }

  /** The search ends by index |taken| at the latest: so the collision loop always terminates. */
  lemma FirstFreeBound(taken: set<string>, name: string)
    ensures FirstFree(taken, name, 0) <= |taken|
  {
    TakenBound(taken, name, FirstFree(taken, name, 0));
  }

  /** An index whose candidate is free and all of whose predecessors are taken is the first free one. */
  lemma FirstFreeUnique(taken: set<string>, name: string, k: nat)
    requires forall m :: 0 <= m < k ==> NameAt(name, m) in taken
    requires NameAt(name, k) !in taken
    ensures FirstFree(taken, name, 0) == k
  {
  }

  /** The destination name a file is placed under: its first candidate not in the destination. */
  function Target(s: FsState, name: string): string
  {
    NameAt(name, FirstFree(s.dest.Keys, name, 0))
  }

  /** The candidate the search stops at is the first one `copyfile` does not refuse. */
  lemma PlaceAt(s: FsState, p: SrcPath, o: Options, k: nat)
    requires forall m :: 0 <= m < k ==> NameAt(p.name, m) in s.dest
    requires NameAt(p.name, k) !in s.dest
    ensures Place(s, p, o) == Transfer(s, p, NameAt(p.name, k), o)
  {
    FirstFreeUnique(s.dest.Keys, p.name, k);
  }

  /** The transfer of one matched file, after the candidates that exist were skipped. */
  function Place(s: FsState, p: SrcPath, o: Options): (r: Step)
    ensures r.outcome != Exists
  {
    Transfer(s, p, Target(s, p.name), o)
  }

  datatype RunResult = Completed(count: nat) | Aborted

  datatype Run = Run(fs: FsState, result: RunResult)

  /**
   * The collision loop over the matched files `ps`, `done` of them already
   * counted; a raised error ends the run.
   */
  function RunAll(s: FsState, ps: seq<SrcPath>, o: Options, done: nat): Run
    decreases |ps|
  {
    if ps == [] then Run(s, Completed(done))
    else
      var st := Place(s, ps[0], o);
      if st.outcome == Raised then Run(st.fs, Aborted)
      else RunAll(st.fs, ps[1..], o, done + 1)
  }

  /** `fnmatch.filter(names, pattern)`, with the pattern given as the predicate it decides. */
  function Filter(names: seq<string>, accept: string -> bool): (r: seq<string>)
    ensures forall x :: x in r <==> x in names && accept(x)
    ensures |r| <= |names|
  {
    if names == [] then []
    else (if accept(names[0]) then [names[0]] else []) + Filter(names[1..], accept)
  }

  function InDir(root: string, names: seq<string>): (r: seq<SrcPath>)
    ensures |r| == |names|
    ensures forall i :: 0 <= i < |r| ==> r[i] == SrcPath(root, names[i])
  {
    if names == [] then [] else [SrcPath(root, names[0])] + InDir(root, names[1..])
  }

  /** The matched files in the order the loop meets them. */
  function Matched(walk: seq<Listing>, accept: string -> bool): seq<SrcPath>
  {
    if walk == [] then []
    else InDir(walk[0].root, Filter(walk[0].names, accept)) + Matched(walk[1..], accept)
  }

  /** The matched files of a walk written as its first listing and the rest. */
  lemma MatchedCons(l: Listing, rest: seq<Listing>, accept: string -> bool)
    ensures Matched([l] + rest, accept) == InDir(l.root, Filter(l.names, accept)) + Matched(rest, accept)
  {
    assert ([l] + rest)[0] == l && ([l] + rest)[1..] == rest;
  }

  /** How many of `names` the predicate accepts. */
  function CountIf(names: seq<string>, accept: string -> bool): nat
  {
    if names == [] then 0 else (if accept(names[0]) then 1 else 0) + CountIf(names[1..], accept)
  }

  /** How many names, over all listed directories, the predicate accepts. */
  function CountMatches(walk: seq<Listing>, accept: string -> bool): nat
  {
    if walk == [] then 0 else CountIf(walk[0].names, accept) + CountMatches(walk[1..], accept)
  }

  /** `rcopy(pattern, src, dst, move, quiet, dryrun)` on an abstract file system. */
  function Rcopy(s: FsState, walk: seq<Listing>, accept: string -> bool, o: Options): Run
  {
    RunAll(s, Matched(walk, accept), o, 0)
  }

  // ----- The collector's properties -----

  lemma {:induction false} FilterCount(names: seq<string>, accept: string -> bool)
    ensures |Filter(names, accept)| == CountIf(names, accept)
  {
    if names != [] {
      FilterCount(names[1..], accept);
    }
  }

  /** The loop meets exactly as many files as the predicate accepts. */
  lemma {:induction false} MatchedCount(walk: seq<Listing>, accept: string -> bool)
    ensures |Matched(walk, accept)| == CountMatches(walk, accept)
  {
    if walk != [] {
      FilterCount(walk[0].names, accept);
      MatchedCount(walk[1..], accept);
    }
  }

  /** A run that completes has counted every matched file once. */
  lemma {:induction false} RunCount(s: FsState, ps: seq<SrcPath>, o: Options, done: nat)
    ensures RunAll(s, ps, o, done).result.Completed? ==> RunAll(s, ps, o, done).result.count == done + |ps|
    decreases |ps|
  {
    if ps != [] {
      var st := Place(s, ps[0], o);
      if st.outcome != Raised {
        RunCount(st.fs, ps[1..], o, done + 1);
      }
    }
  }

  /** No overwrite: every file the destination held is still there, unchanged, even after an aborted run. */
  lemma {:induction false} RunKeepsDest(s: FsState, ps: seq<SrcPath>, o: Options, done: nat)
    ensures KeepsDest(s, RunAll(s, ps, o, done).fs)
    decreases |ps|
  {
    if ps != [] {
      var st := Place(s, ps[0], o);
      if st.outcome != Raised {
        RunKeepsDest(st.fs, ps[1..], o, done + 1);
      }
    }
  }

  /** Each transfer of a completed real run adds one new name to the destination. */
  lemma {:induction false} RunGrowsDest(s: FsState, ps: seq<SrcPath>, o: Options, done: nat)
    requires !o.dryrun
    ensures RunAll(s, ps, o, done).result.Completed? ==> |RunAll(s, ps, o, done).fs.dest| == |s.dest| + |ps|
    decreases |ps|
  {
    if ps != [] {
      var st := Place(s, ps[0], o);
      if st.outcome != Raised {
        var dst := Target(s, ps[0].name);
        assert st.fs.dest.Keys == s.dest.Keys + {dst};
        RunGrowsDest(st.fs, ps[1..], o, done + 1);
      }
    }
  }

  /**
   * What a dry run prints: every file is reported against the first candidate
   * free in the destination as it was before the run, since that never changes.
   */
  function DryRunLines(taken: set<string>, ps: seq<SrcPath>, o: Options): seq<Line>
  {
    if ps == [] then []
    else Announce(o, ps[0], NameAt(ps[0].name, FirstFree(taken, ps[0].name, 0))) + DryRunLines(taken, ps[1..], o)
  }

  lemma PlaceDry(s: FsState, p: SrcPath, o: Options)
    requires o.dryrun
    ensures Place(s, p, o) == Step(s.(out := s.out + Announce(o, p, Target(s, p.name))), Done)
  {
  }

  lemma DryRunLinesCons(taken: set<string>, ps: seq<SrcPath>, o: Options)
    requires ps != []
    ensures DryRunLines(taken, ps, o) == Announce(o, ps[0], NameAt(ps[0].name, FirstFree(taken, ps[0].name, 0))) + DryRunLines(taken, ps[1..], o)
  {
  }

  /** One step of the collision loop, for a run that does not stop at it. */
  lemma RunAllCons(s: FsState, ps: seq<SrcPath>, o: Options, done: nat)
    requires ps != [] && Place(s, ps[0], o).outcome != Raised
    ensures RunAll(s, ps, o, done) == RunAll(Place(s, ps[0], o).fs, ps[1..], o, done + 1)
  {
  }

  /** The collision loop's first step, on a run written as its first file and the rest. */
  lemma RunAllHead(s: FsState, p: SrcPath, rest: seq<SrcPath>, o: Options, done: nat)
    ensures RunAll(s, [p] + rest, o, done)
      == if Place(s, p, o).outcome == Raised then Run(Place(s, p, o).fs, Aborted)
         else RunAll(Place(s, p, o).fs, rest, o, done + 1)
  {
    assert ([p] + rest)[0] == p && ([p] + rest)[1..] == rest;
  }

  lemma InDirCons(root: string, names: seq<string>, j: nat, later: seq<SrcPath>)
    requires j < |names|
    ensures InDir(root, names[j..]) + later == [SrcPath(root, names[j])] + (InDir(root, names[j + 1..]) + later)
  {
    assert names[j..][1..] == names[j + 1..];
  }

  /** A dry run completes and counts every file. */
  lemma {:induction false} RunDryCompletes(s: FsState, ps: seq<SrcPath>, o: Options, done: nat)
    requires o.dryrun
    ensures RunAll(s, ps, o, done).result == Completed(done + |ps|)
    decreases |ps|
  {
    if ps != [] {
      PlaceDry(s, ps[0], o);
      RunAllCons(s, ps, o, done);
      RunDryCompletes(Place(s, ps[0], o).fs, ps[1..], o, done + 1);
    }
  }

  /** A dry run neither adds to the destination nor removes from the sources. */
  lemma {:induction false} RunDryKeepsFiles(s: FsState, ps: seq<SrcPath>, o: Options, done: nat)
    requires o.dryrun
    ensures SameFiles(RunAll(s, ps, o, done).fs, s)
    decreases |ps|
  {
    if ps != [] {
      PlaceDry(s, ps[0], o);
      RunAllCons(s, ps, o, done);
      RunDryKeepsFiles(Place(s, ps[0], o).fs, ps[1..], o, done + 1);
    }
  }

  /** A dry run prints the reference lines: every target is chosen against the unchanged destination. */
  lemma {:induction false} RunDryOutput(s: FsState, ps: seq<SrcPath>, o: Options, done: nat)
    requires o.dryrun
    ensures RunAll(s, ps, o, done).fs.out == s.out + DryRunLines(s.dest.Keys, ps, o)
    decreases |ps|
  {
    if ps != [] {
      var t := s.(out := s.out + Announce(o, ps[0], Target(s, ps[0].name)));
      PlaceDry(s, ps[0], o);
      DryRunLinesCons(s.dest.Keys, ps, o);
      RunAllCons(s, ps, o, done);
      RunDryOutput(t, ps[1..], o, done + 1);
    }
  }

  /**
   * A printing dry run reports file `i` against the first candidate of its
   * name that is free in the destination before the run: files with the same
   * name are all reported under the same destination name.
   */
  lemma {:induction false} DryRunLinesAt(taken: set<string>, ps: seq<SrcPath>, o: Options)
    requires !o.quiet
    ensures |DryRunLines(taken, ps, o)| == |ps|
    ensures forall i :: 0 <= i < |ps| ==>
      DryRunLines(taken, ps, o)[i] == Line(VerbOf(o.move), ps[i], NameAt(ps[i].name, FirstFree(taken, ps[i].name, 0)))
  {
    if ps != [] {
      DryRunLinesAt(taken, ps[1..], o);
      var l := DryRunLines(taken, ps, o);
      assert l == [Line(VerbOf(o.move), ps[0], NameAt(ps[0].name, FirstFree(taken, ps[0].name, 0)))] + DryRunLines(taken, ps[1..], o);
      forall i | 1 <= i < |ps| ensures l[i] == Line(VerbOf(o.move), ps[i], NameAt(ps[i].name, FirstFree(taken, ps[i].name, 0))) {
        assert l[i] == DryRunLines(taken, ps[1..], o)[i - 1] && ps[i] == ps[1..][i - 1];
      }
    }
  }

  /** Against an empty destination a dry run reports every file under its own name, duplicates included. */
  lemma DryRunEmptyDest(ps: seq<SrcPath>, o: Options)
    requires !o.quiet
    ensures |DryRunLines({}, ps, o)| == |ps|
    ensures forall i :: 0 <= i < |ps| ==> DryRunLines({}, ps, o)[i] == Line(VerbOf(o.move), ps[i], ps[i].name)
  {
    DryRunLinesAt({}, ps, o);
    forall i | 0 <= i < |ps| ensures NameAt(ps[i].name, FirstFree({}, ps[i].name, 0)) == ps[i].name {
      FirstFreeUnique({}, ps[i].name, 0);
      NameAtZero(ps[i].name);
    }
  }

  /** Quiet runs print nothing. */
  lemma {:induction false} RunQuiet(s: FsState, ps: seq<SrcPath>, o: Options, done: nat)
    requires o.quiet
    ensures RunAll(s, ps, o, done).fs.out == s.out
    decreases |ps|
  {
    if ps != [] {
      var st := Place(s, ps[0], o);
      if st.outcome != Raised {
        RunQuiet(st.fs, ps[1..], o, done + 1);
      }
    }
  }

  /** Otherwise a completed run prints one line per transferred file. */
  lemma {:induction false} RunLines(s: FsState, ps: seq<SrcPath>, o: Options, done: nat)
    requires !o.quiet
    ensures RunAll(s, ps, o, done).result.Completed? ==> |RunAll(s, ps, o, done).fs.out| == |s.out| + |ps|
    decreases |ps|
  {
    if ps != [] {
      var st := Place(s, ps[0], o);
      if st.outcome != Raised {
        RunLines(st.fs, ps[1..], o, done + 1);
      }
    }
  }

  // ----- Where a real run puts each file -----

  /**
   * The destination names a real run chooses, worked out on names alone:
   * each file takes the first candidate of its name not in `taken`, and that
   * name is taken from then on.
   */
  function Targets(taken: set<string>, ps: seq<SrcPath>): (ts: seq<string>)
    ensures |ts| == |ps|
    decreases |ps|
  {
    if ps == [] then []
    else
      var t := NameAt(ps[0].name, FirstFree(taken, ps[0].name, 0));
      [t] + Targets(taken + {t}, ps[1..])
  }

  /** First fit: file `i` takes the first candidate of its name that is neither in `taken` nor chosen before it. */
  lemma {:induction false} TargetsFirstFit(taken: set<string>, ps: seq<SrcPath>, i: nat)
    requires i < |ps|
    ensures var ts := Targets(taken, ps);
      ts[i] == NameAt(ps[i].name, FirstFree(taken + NameSet(ts[..i]), ps[i].name, 0))
    decreases i
  {
    var ts := Targets(taken, ps);
    var t := NameAt(ps[0].name, FirstFree(taken, ps[0].name, 0));
    var rest := Targets(taken + {t}, ps[1..]);
    assert ts == [t] + rest;
    if i == 0 {
      NameSetEmpty(taken, ts);
    } else {
      assert ps[i] == ps[1..][i - 1];
      TargetsFirstFit(taken + {t}, ps[1..], i - 1);
      FirstFitStep(taken, t, rest, ps[i], i);
    }
  }

  /** Before the first file, only `taken` counts. */
  lemma NameSetEmpty(taken: set<string>, ts: seq<string>)
    ensures taken + NameSet(ts[..0]) == taken
  {
    assert ts[..0] == [];
  }

  /** One step of `TargetsFirstFit`: the first fit for `rest` after `t` is the first fit for `[t] + rest`. */
  lemma FirstFitStep(taken: set<string>, t: string, rest: seq<string>, p: SrcPath, i: nat)
    requires 0 < i <= |rest|
    requires rest[i - 1] == NameAt(p.name, FirstFree((taken + {t}) + NameSet(rest[..i - 1]), p.name, 0))
    ensures ([t] + rest)[i] == NameAt(p.name, FirstFree(taken + NameSet(([t] + rest)[..i]), p.name, 0))
  {
    PrefixSet(taken, t, rest, i - 1);
  }

  /** The names a sequence holds. */
  function NameSet(ts: seq<string>): (r: set<string>)
    ensures forall x :: x in r <==> x in ts
  {
    if ts == [] then {} else {ts[0]} + NameSet(ts[1..])
  }

  /** The names in a prefix of `[t] + rest` are `t` and those in the shorter prefix of `rest`. */
  lemma PrefixSet(taken: set<string>, t: string, rest: seq<string>, i: nat)
    requires i <= |rest|
    ensures taken + NameSet(([t] + rest)[..i + 1]) == (taken + {t}) + NameSet(rest[..i])
  {
    assert ([t] + rest)[..i + 1] == [t] + rest[..i];
    assert ([t] + rest[..i])[1..] == rest[..i];
  }

  /** The chosen names are new to the destination and pairwise different: no file is written over another. */
  lemma TargetsFresh(taken: set<string>, ps: seq<SrcPath>, i: nat)
    requires i < |ps|
    ensures Targets(taken, ps)[i] !in taken
    ensures forall j :: 0 <= j < i ==> Targets(taken, ps)[j] != Targets(taken, ps)[i]
  {
    var ts := Targets(taken, ps);
    TargetsFirstFit(taken, ps, i);
    forall j | 0 <= j < i ensures ts[j] != ts[i] {
      assert ts[j] == ts[..i][j];
    }
  }

  /** One real transfer that did not raise, spelled out. */
  lemma PlaceReal(s: FsState, p: SrcPath, o: Options)
    requires !o.dryrun && Place(s, p, o).outcome != Raised
    ensures p in s.sources
    ensures Place(s, p, o).fs.dest == s.dest[Target(s, p.name) := s.sources[p]]
    ensures Place(s, p, o).fs.dest.Keys == s.dest.Keys + {Target(s, p.name)}
    ensures Place(s, p, o).fs.out == s.out + Announce(o, p, Target(s, p.name))
    ensures forall q :: q in Place(s, p, o).fs.sources ==> q in s.sources && Place(s, p, o).fs.sources[q] == s.sources[q]
  {
  }

  /**
   * A completed real run found file `i` in the source tree and stored its
   * contents under its target name.
   */
  lemma {:induction false} RunPlacedFiles(s: FsState, ps: seq<SrcPath>, o: Options, done: nat)
    requires !o.dryrun
    ensures var r := RunAll(s, ps, o, done); var ts := Targets(s.dest.Keys, ps);
      r.result.Completed? ==>
        forall i :: 0 <= i < |ps| ==> ps[i] in s.sources && ts[i] in r.fs.dest && r.fs.dest[ts[i]] == s.sources[ps[i]]
    decreases |ps|
  {
    if ps != [] && Place(s, ps[0], o).outcome != Raised {
      var st := Place(s, ps[0], o);
      PlaceReal(s, ps[0], o);
      RunAllCons(s, ps, o, done);
      RunPlacedFiles(st.fs, ps[1..], o, done + 1);
      RunKeepsDest(st.fs, ps[1..], o, done + 1);
      var r := RunAll(s, ps, o, done);
      var ts := Targets(s.dest.Keys, ps);
      var rest := Targets(st.fs.dest.Keys, ps[1..]);
      assert ts == [Target(s, ps[0].name)] + rest;
      if r.result.Completed? {
        forall i | 0 <= i < |ps| ensures ps[i] in s.sources && ts[i] in r.fs.dest && r.fs.dest[ts[i]] == s.sources[ps[i]] {
          if i > 0 {
            assert ps[i] == ps[1..][i - 1] && ts[i] == rest[i - 1];
          }
        }
      }
    }
  }

  /** After a completed real run the destination holds exactly its old names and the targets. */
  lemma {:induction false} RunPlacedNames(s: FsState, ps: seq<SrcPath>, o: Options, done: nat)
    requires !o.dryrun
    ensures var r := RunAll(s, ps, o, done); var ts := Targets(s.dest.Keys, ps);
      r.result.Completed? ==> forall n :: n in r.fs.dest <==> n in s.dest || n in ts
    decreases |ps|
  {
    if ps != [] && Place(s, ps[0], o).outcome != Raised {
      var st := Place(s, ps[0], o);
      PlaceReal(s, ps[0], o);
      RunAllCons(s, ps, o, done);
      RunPlacedNames(st.fs, ps[1..], o, done + 1);
      var ts := Targets(s.dest.Keys, ps);
      assert ts == [Target(s, ps[0].name)] + Targets(st.fs.dest.Keys, ps[1..]);
    }
  }

  /** The lines a printing run emits for the files `ps` placed under the names `ts`. */
  function Report(o: Options, ps: seq<SrcPath>, ts: seq<string>): (r: seq<Line>)
    requires |ts| == |ps|
    ensures |r| == |ps|
    ensures forall i :: 0 <= i < |ps| ==> r[i] == Line(VerbOf(o.move), ps[i], ts[i])
    decreases |ps|
  {
    if ps == [] then [] else [Line(VerbOf(o.move), ps[0], ts[0])] + Report(o, ps[1..], ts[1..])
  }

  /** A completed, printing real run prints, in order, the verb, file `i` and its target, for every file. */
  lemma {:induction false} RunReport(s: FsState, ps: seq<SrcPath>, o: Options, done: nat)
    requires !o.dryrun && !o.quiet
    ensures RunAll(s, ps, o, done).result.Completed? ==>
      RunAll(s, ps, o, done).fs.out == s.out + Report(o, ps, Targets(s.dest.Keys, ps))
    decreases |ps|
  {
    if ps != [] && Place(s, ps[0], o).outcome != Raised {
      var st := Place(s, ps[0], o);
      var t := Target(s, ps[0].name);
      PlaceReal(s, ps[0], o);
      RunAllCons(s, ps, o, done);
      RunReport(st.fs, ps[1..], o, done + 1);
      var ts := Targets(s.dest.Keys, ps);
      assert ts == [t] + Targets(st.fs.dest.Keys, ps[1..]);
      assert ts[1..] == Targets(st.fs.dest.Keys, ps[1..]);
      assert Report(o, ps, ts) == [Line(VerbOf(o.move), ps[0], t)] + Report(o, ps[1..], ts[1..]);
    }
  }

  /** Copy mode never touches the source tree. */
  lemma {:induction false} RunCopyKeepsSources(s: FsState, ps: seq<SrcPath>, o: Options, done: nat)
    requires !o.move
    ensures RunAll(s, ps, o, done).fs.sources == s.sources
    decreases |ps|
  {
    if ps != [] {
      var st := Place(s, ps[0], o);
      if st.outcome != Raised {
        RunCopyKeepsSources(st.fs, ps[1..], o, done + 1);
      }
    }
  }

  predicate Distinct(ps: seq<SrcPath>)
  {
    forall i, j :: 0 <= i < j < |ps| ==> ps[i] != ps[j]
  }

  /**
   * A real run completes when every matched file is present in the source
   * tree and, in move mode, no file is met twice.
   */
  lemma {:induction false} RunCompletes(s: FsState, ps: seq<SrcPath>, o: Options, done: nat)
    requires forall i :: 0 <= i < |ps| ==> ps[i] in s.sources
    requires o.move ==> Distinct(ps)
    ensures RunAll(s, ps, o, done).result == Completed(done + |ps|)
    decreases |ps|
  {
    if ps != [] {
      var st := Place(s, ps[0], o);
      assert st.outcome == Done;
      forall i | 0 <= i < |ps[1..]| ensures ps[1..][i] in st.fs.sources {
        assert ps[1..][i] == ps[i + 1];
        if o.move && !o.dryrun {
          assert ps[0] != ps[i + 1];
        }
      }
      if o.move {
        assert Distinct(ps[1..]) by {
          forall i, j | 0 <= i < j < |ps[1..]| ensures ps[1..][i] != ps[1..][j] {
            assert ps[1..][i] == ps[i + 1] && ps[1..][j] == ps[j + 1];
          }
        }
      }
      RunCompletes(st.fs, ps[1..], o, done + 1);
    }
  }

  /** A completed move met every matched file in the source tree. */
  lemma {:induction false} RunMoveFound(s: FsState, ps: seq<SrcPath>, o: Options, done: nat)
    requires o.move && !o.dryrun
    ensures RunAll(s, ps, o, done).result.Completed? ==> forall i :: 0 <= i < |ps| ==> ps[i] in s.sources
    decreases |ps|
  {
    if ps != [] && Place(s, ps[0], o).outcome != Raised {
      var t := Place(s, ps[0], o).fs;
      RunAllCons(s, ps, o, done);
      RunMoveFound(t, ps[1..], o, done + 1);
      if RunAll(s, ps, o, done).result.Completed? {
        forall i | 0 <= i < |ps| ensures ps[i] in s.sources {
          if i > 0 {
            assert ps[i] == ps[1..][i - 1];
          }
        }
      }
    }
  }

  /** A real move that did not raise took its file out of the source tree. */
  lemma PlaceMoves(s: FsState, p: SrcPath, o: Options)
    requires o.move && !o.dryrun && Place(s, p, o).outcome != Raised
    ensures Place(s, p, o).fs.sources == s.sources - {p}
  {
  }

  /** Removing the head and then the rest removes all the paths. */
  lemma RemoveAll(m: map<SrcPath, Bytes>, ps: seq<SrcPath>)
    requires ps != []
    ensures (m - {ps[0]}) - (set p | p in ps[1..]) == m - (set p | p in ps)
  {
    assert (set p | p in ps) == {ps[0]} + (set p | p in ps[1..]);
  }

  /** A completed move removes exactly the matched files from the source tree; the rest stay as they were. */
  lemma {:induction false} RunMoveSources(s: FsState, ps: seq<SrcPath>, o: Options, done: nat)
    requires o.move && !o.dryrun
    ensures RunAll(s, ps, o, done).result.Completed? ==> RunAll(s, ps, o, done).fs.sources == s.sources - (set p | p in ps)
    decreases |ps|
  {
    if ps != [] && Place(s, ps[0], o).outcome != Raised {
      var t := Place(s, ps[0], o).fs;
      PlaceMoves(s, ps[0], o);
      RunAllCons(s, ps, o, done);
      RunMoveSources(t, ps[1..], o, done + 1);
      RemoveAll(s.sources, ps);
    }
  }

  // ----- The same properties stated for a whole `rcopy` call -----

  /** `rcopy` returns the number of accepted names, and never overwrites a file of the destination. */
  lemma RcopyCounts(s: FsState, walk: seq<Listing>, accept: string -> bool, o: Options)
    ensures Rcopy(s, walk, accept, o).result.Completed? ==> Rcopy(s, walk, accept, o).result.count == CountMatches(walk, accept)
    ensures KeepsDest(s, Rcopy(s, walk, accept, o).fs)
  {
    MatchedCount(walk, accept);
    RunCount(s, Matched(walk, accept), o, 0);
    RunKeepsDest(s, Matched(walk, accept), o, 0);
  }

  /** A dry run of `rcopy` returns the same count a real run would, and leaves every file where it was. */
  lemma RcopyDryRun(s: FsState, walk: seq<Listing>, accept: string -> bool, o: Options)
    requires o.dryrun
    ensures Rcopy(s, walk, accept, o).result == Completed(CountMatches(walk, accept))
    ensures SameFiles(Rcopy(s, walk, accept, o).fs, s)
    ensures Rcopy(s, walk, accept, o).fs.out == s.out + DryRunLines(s.dest.Keys, Matched(walk, accept), o)
  {
    MatchedCount(walk, accept);
    RunDryCompletes(s, Matched(walk, accept), o, 0);
    RunDryKeepsFiles(s, Matched(walk, accept), o, 0);
    RunDryOutput(s, Matched(walk, accept), o, 0);
  }

  /** With no accepted name, `rcopy` returns 0 and changes nothing, output included. */
  lemma RcopyNoMatch(s: FsState, walk: seq<Listing>, accept: string -> bool, o: Options)
    requires CountMatches(walk, accept) == 0
    ensures Rcopy(s, walk, accept, o) == Run(s, Completed(0))
  {
    MatchedCount(walk, accept);
  }

  /**
   * Every matched file of a completed real `rcopy` ends up in the destination:
   * under its target name, which was free and which no other file takes, with
   * its contents. Nothing else is added, and a non-quiet call prints one line
   * per file naming it and its target.
   */
  lemma RcopyPlaced(s: FsState, walk: seq<Listing>, accept: string -> bool, o: Options)
    requires !o.dryrun
    ensures var r := Rcopy(s, walk, accept, o); var ps := Matched(walk, accept); var ts := Targets(s.dest.Keys, ps);
      r.result.Completed? ==>
        (forall i :: 0 <= i < |ps| ==> ps[i] in s.sources && ts[i] !in s.dest && ts[i] in r.fs.dest && r.fs.dest[ts[i]] == s.sources[ps[i]])
        && (forall i, j :: 0 <= i < j < |ps| ==> ts[i] != ts[j])
        && (forall n :: n in r.fs.dest <==> n in s.dest || n in ts)
        && (!o.quiet ==> r.fs.out == s.out + Report(o, ps, ts))
  {
    var ps := Matched(walk, accept);
    RunPlacedFiles(s, ps, o, 0);
    RunPlacedNames(s, ps, o, 0);
    var ts := Targets(s.dest.Keys, ps);
    forall i | 0 <= i < |ps| ensures ts[i] !in s.dest {
      TargetsFresh(s.dest.Keys, ps, i);
    }
    forall i, j | 0 <= i < j < |ps| ensures ts[i] != ts[j] {
      TargetsFresh(s.dest.Keys, ps, j);
    }
    if !o.quiet {
      RunReport(s, ps, o, 0);
    }
  }

  // ----- The imperative model -----

  /** The file system `copyfile` and `rcopy` act on. */
  class FileSystem {
    var dest: map<string, Bytes>
    var sources: map<SrcPath, Bytes>
    var out: seq<Line>

    constructor (dest: map<string, Bytes>, sources: map<SrcPath, Bytes>)
      ensures this.dest == dest && this.sources == sources && out == []
    {
      this.dest := dest;
      this.sources := sources;
      out := [];
    }

    function State(): FsState
      reads this
    {
      FsState(dest, sources, out)
    }

    /** `copyfile`: refuses an existing destination, otherwise prints and (unless a dry run) transfers. */
    method CopyFile(src: SrcPath, dst: string, o: Options) returns (r: Outcome)
      modifies this
      ensures Step(State(), r) == Transfer(old(State()), src, dst, o)
    {
      if dst in dest {
        return Exists;
      }
      if !o.quiet {
        out := out + [Line(VerbOf(o.move), src, dst)];
      }
      if !o.dryrun {
        if src !in sources {
          return Raised;
        }
        dest := dest[dst := sources[src]];
        if o.move {
          sources := sources - {src};
        }
      }
      return Done;
    }
  }

  /**
   * The innermost loop of `rcopy`: try the candidates of `p.name` in index
   * order until `copyfile` does not refuse one.
   */
  method PlaceFile(fs: FileSystem, p: SrcPath, o: Options) returns (outcome: Outcome, ghost index: nat)
    modifies fs
    ensures forall m :: 0 <= m < index ==> NameAt(p.name, m) in old(fs.dest)
    ensures NameAt(p.name, index) !in old(fs.dest)
    ensures Step(fs.State(), outcome) == Transfer(old(fs.State()), p, NameAt(p.name, index), o)
  {
    ghost var s := fs.State();
    var k := 0;
    while true
      invariant fs.State() == s
      invariant forall m :: 0 <= m < k ==> NameAt(p.name, m) in s.dest
      decreases |s.dest.Keys| - k
    {
      var dst := NameAt(p.name, k);
      outcome := fs.CopyFile(p, dst, o);
      if outcome != Exists {
        return outcome, k;
      }
      assert dst in s.dest;
      assert forall m :: 0 <= m < k + 1 ==> NameAt(p.name, m) in s.dest;
      TakenBound(s.dest.Keys, p.name, k + 1);
      k := k + 1;
    }
  }

  /** What a whole `rcopy` call promises, derived from the collision loop's properties. */
  lemma RcopyFacts(s: FsState, walk: seq<Listing>, accept: string -> bool, o: Options)
    ensures Rcopy(s, walk, accept, o).result.Completed? ==> Rcopy(s, walk, accept, o).result.count == CountMatches(walk, accept)
    ensures KeepsDest(s, Rcopy(s, walk, accept, o).fs)
    ensures o.dryrun ==> Rcopy(s, walk, accept, o).result == Completed(CountMatches(walk, accept)) && SameFiles(Rcopy(s, walk, accept, o).fs, s)
    ensures o.quiet ==> Rcopy(s, walk, accept, o).fs.out == s.out
  {
    RcopyCounts(s, walk, accept, o);
    if o.dryrun {
      RcopyDryRun(s, walk, accept, o);
    }
    if o.quiet {
      RunQuiet(s, Matched(walk, accept), o, 0);
    }
  }

  /**
   * `rcopy`: for each listed directory and each accepted name in it, place
   * the file under its first free candidate and count it.
   */
  method RunRcopy(fs: FileSystem, walk: seq<Listing>, accept: string -> bool, o: Options) returns (r: RunResult)
    modifies fs
    ensures Run(fs.State(), r) == Rcopy(old(fs.State()), walk, accept, o)
    ensures r.Completed? ==> r.count == CountMatches(walk, accept)
    ensures KeepsDest(old(fs.State()), fs.State())
    ensures o.dryrun ==> r == Completed(CountMatches(walk, accept)) && fs.dest == old(fs.dest) && fs.sources == old(fs.sources)
    ensures o.quiet ==> fs.out == old(fs.out)
  {
    ghost var s0 := fs.State();
    RcopyFacts(s0, walk, accept, o);
    r := CollectAll(fs, walk, accept, o);
  }

  /** The outer loop of `rcopy`, over the listed directories. */
  method CollectAll(fs: FileSystem, walk: seq<Listing>, accept: string -> bool, o: Options) returns (r: RunResult)
    modifies fs
    ensures Run(fs.State(), r) == Rcopy(old(fs.State()), walk, accept, o)
  {
    ghost var goal := Rcopy(fs.State(), walk, accept, o);
    var count: nat := 0;
    var i := 0;
    assert walk[0..] == walk;
    while i < |walk|
      invariant 0 <= i <= |walk|
      invariant goal == RunAll(fs.State(), Matched(walk[i..], accept), o, count)
    {
      assert walk[i..][1..] == walk[i + 1..];
      var aborted;
      aborted, count := CollectDir(fs, walk[i].root, Filter(walk[i].names, accept), Matched(walk[i + 1..], accept), o, count);
      if aborted {
        return Aborted;
      }
      i := i + 1;
    }
    return Completed(count);
  }

  /**
   * The middle loop of `rcopy`, over the accepted names of one directory;
   * `later` are the files the walk meets after them.
   */
  method CollectDir(fs: FileSystem, root: string, matched: seq<string>, ghost later: seq<SrcPath>, o: Options, count0: nat)
    returns (aborted: bool, count: nat)
    modifies fs
    ensures aborted ==> RunAll(old(fs.State()), InDir(root, matched) + later, o, count0) == Run(fs.State(), Aborted)
    ensures !aborted ==> RunAll(old(fs.State()), InDir(root, matched) + later, o, count0) == RunAll(fs.State(), later, o, count)
  {
    ghost var goal := RunAll(fs.State(), InDir(root, matched) + later, o, count0);
    count := count0;
    var j := 0;
    assert matched[0..] == matched;
    while j < |matched|
      invariant 0 <= j <= |matched|
      invariant goal == RunAll(fs.State(), InDir(root, matched[j..]) + later, o, count)
    {
      var p := SrcPath(root, matched[j]);
      ghost var sj := fs.State();
      InDirCons(root, matched, j, later);
      var outcome, index := PlaceFile(fs, p, o);
      PlaceAt(sj, p, o, index);
      RunAllHead(sj, p, InDir(root, matched[j + 1..]) + later, o, count);
      if outcome == Raised {
        return true, count;
      }
      count := count + 1;
      j := j + 1;
    }
    assert InDir(root, matched[j..]) + later == later by {
      assert matched[j..] == [];
    }
    return false, count;
  }
}
