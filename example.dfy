/**
 * The example of the module documentation: `rcopy *.txt /src /dest --move`
 * over `/src/1/a.txt`, `/src/2/b.txt`, `/src/3/a.txt`, `/src/4/1/c.txt`
 * fills the empty destination with `a.txt`, `b.txt`, `a(1).txt`, `c.txt`.
 */
module RcopyExample {
  import opened PathNames
  import opened Sequencer
  import opened Collector

  /** `*.txt` on these names: the name ends in `.txt`. */
  predicate EndsTxt(n: string)
  {
    |n| >= 4 && n[|n| - 4..] == ".txt"
  }

  /** One bottom-up order of the walk: every directory after its subdirectories. */
  function ExampleWalk(): seq<Listing>
  {
    [Listing("/src/1", ["a.txt"]), Listing("/src/2", ["b.txt"]), Listing("/src/3", ["a.txt"]),
     Listing("/src/4/1", ["c.txt"]), Listing("/src/4", []), Listing("/src", [])]
  }

  /** One listed file the pattern accepts. */
  lemma OneMatch(root: string, name: string)
    requires EndsTxt(name)
    ensures InDir(root, Filter([name], EndsTxt)) == [SrcPath(root, name)]
  {
    assert [name][1..] == [];
  }

  /** The walk's six listings as a head and the rest, five times over. */
  lemma SixCons(l1: Listing, l2: Listing, l3: Listing, l4: Listing, l5: Listing, l6: Listing)
    ensures [l1, l2, l3, l4, l5, l6] == [l1] + ([l2] + ([l3] + ([l4] + ([l5] + ([l6] + [])))))
  {
  }

  lemma ExampleMatched()
    ensures Matched(ExampleWalk(), EndsTxt) ==
      [SrcPath("/src/1", "a.txt"), SrcPath("/src/2", "b.txt"), SrcPath("/src/3", "a.txt"), SrcPath("/src/4/1", "c.txt")]
  {
    var l1, l2, l3, l4, l5, l6 := Listing("/src/1", ["a.txt"]), Listing("/src/2", ["b.txt"]), Listing("/src/3", ["a.txt"]),
      Listing("/src/4/1", ["c.txt"]), Listing("/src/4", []), Listing("/src", []);
    SixCons(l1, l2, l3, l4, l5, l6);
    OneMatch("/src/1", "a.txt");
    OneMatch("/src/2", "b.txt");
    OneMatch("/src/3", "a.txt");
    OneMatch("/src/4/1", "c.txt");
    MatchedCons(l6, [], EndsTxt);
    MatchedCons(l5, [l6] + [], EndsTxt);
    MatchedCons(l4, [l5] + ([l6] + []), EndsTxt);
    MatchedCons(l3, [l4] + ([l5] + ([l6] + [])), EndsTxt);
    MatchedCons(l2, [l3] + ([l4] + ([l5] + ([l6] + []))), EndsTxt);
    MatchedCons(l1, [l2] + ([l3] + ([l4] + ([l5] + ([l6] + [])))), EndsTxt);
  }

  lemma Names()
    ensures NameAt("a.txt", 0) == "a.txt" && NameAt("a.txt", 1) == "a(1).txt"
    ensures NameAt("b.txt", 0) == "b.txt" && NameAt("c.txt", 0) == "c.txt"
  {
    NameAtZero("a.txt");
    NameAtZero("b.txt");
    NameAtZero("c.txt");
    ExampleSplit();
    assert Decimal(1) == "1";
    NameAtIndexed("a.txt", 1);
  }

  lemma ExampleSplit()
    ensures Stem("a.txt") == "a" && Suffix("a.txt") == ".txt"
  {
    LastIndexOfUnique("a.txt", '.', 1);
  }

  /** One move of a present file to the first free candidate of its name, index `k`. */
  lemma MoveTo(s: FsState, p: SrcPath, o: Options, k: nat)
    requires o.move && !o.dryrun && p in s.sources
    requires forall m :: 0 <= m < k ==> NameAt(p.name, m) in s.dest
    requires NameAt(p.name, k) !in s.dest
    ensures Place(s, p, o)
      == Step(FsState(s.dest[NameAt(p.name, k) := s.sources[p]], s.sources - {p}, s.out + Announce(o, p, NameAt(p.name, k))), Done)
  {
    FirstFreeUnique(s.dest.Keys, p.name, k);
  }

  /** One step of the example's collision loop. */
  lemma MoveStep(s: FsState, p: SrcPath, rest: seq<SrcPath>, o: Options, done: nat, k: nat)
    requires o.move && !o.dryrun && p in s.sources
    requires forall m :: 0 <= m < k ==> NameAt(p.name, m) in s.dest
    requires NameAt(p.name, k) !in s.dest
    ensures RunAll(s, [p] + rest, o, done)
      == RunAll(FsState(s.dest[NameAt(p.name, k) := s.sources[p]], s.sources - {p}, s.out + Announce(o, p, NameAt(p.name, k))), rest, o, done + 1)
  {
    MoveTo(s, p, o, k);
    RunAllHead(s, p, rest, o, done);
  }

  /** The first two moves of the example: `a` and `b` land under their own names. */
  lemma ExampleRunFirst(p1: SrcPath, p2: SrcPath, rest: seq<SrcPath>, src: map<SrcPath, Bytes>, a: string, b: string, o: Options)
    requires o.move && !o.dryrun
    requires p1.name == a && p2.name == b && NameAt(a, 0) == a && NameAt(b, 0) == b && a != b
    requires p1 != p2 && p1 in src && p2 in src
    ensures RunAll(FsState(map[], src, []), [p1] + ([p2] + rest), o, 0)
      == RunAll(FsState(map[a := src[p1]][b := src[p2]], src - {p1} - {p2}, [] + Announce(o, p1, a) + Announce(o, p2, b)), rest, o, 2)
  {
    MoveStep(FsState(map[], src, []), p1, [p2] + rest, o, 0, 0);
    MoveStep(FsState(map[a := src[p1]], src - {p1}, [] + Announce(o, p1, a)), p2, rest, o, 1, 0);
  }

  /** The last two moves: the second `a` becomes `a1name`, and `c` keeps its name. */
  lemma ExampleRunLast(p3: SrcPath, p4: SrcPath, a1: Bytes, b2: Bytes, src: map<SrcPath, Bytes>, out: seq<Line>,
                       a: string, b: string, c: string, a1name: string, o: Options)
    requires o.move && !o.dryrun
    requires p3.name == a && p4.name == c && NameAt(a, 0) == a && NameAt(a, 1) == a1name && NameAt(c, 0) == c
    requires a1name != a && a1name != b && c != a && c != b && c != a1name
    requires p3 != p4 && p3 in src && p4 in src
    ensures RunAll(FsState(map[a := a1][b := b2], src, out), [p3] + ([p4] + []), o, 2)
      == Run(FsState(map[a := a1][b := b2][a1name := src[p3]][c := src[p4]], src - {p3} - {p4},
                     out + Announce(o, p3, a1name) + Announce(o, p4, c)), Completed(4))
  {
    var dest := map[a := a1][b := b2];
    MoveStep(FsState(dest, src, out), p3, [p4] + [], o, 2, 1);
    MoveStep(FsState(dest[a1name := src[p3]], src - {p3}, out + Announce(o, p3, a1name)), p4, [], o, 3, 0);
  }

  /** The four progress lines of the example, or none when quiet. */
  lemma ExampleLines(p1: SrcPath, p2: SrcPath, p3: SrcPath, p4: SrcPath, a: string, b: string, c: string, a1name: string, o: Options)
    requires o.move
    ensures [] + Announce(o, p1, a) + Announce(o, p2, b) + Announce(o, p3, a1name) + Announce(o, p4, c)
      == if o.quiet then [] else [Line(MoveVerb, p1, a), Line(MoveVerb, p2, b), Line(MoveVerb, p3, a1name), Line(MoveVerb, p4, c)]
  {
  }

  /** The example's source map: its entries, and taking its four keys out one by one empties it. */
  lemma ExampleSources(p1: SrcPath, p2: SrcPath, p3: SrcPath, p4: SrcPath, a1: Bytes, b2: Bytes, a3: Bytes, c4: Bytes)
    requires p1 != p2 && p1 != p3 && p1 != p4 && p2 != p3 && p2 != p4 && p3 != p4
    ensures var src := map[p1 := a1, p2 := b2, p3 := a3, p4 := c4];
      && src[p1] == a1 && src[p2] == b2 && src[p3] == a3 && src[p4] == c4
      && p1 in src && p2 in src && p3 in src - {p1} - {p2} && p4 in src - {p1} - {p2}
      && src - {p1} - {p2} - {p3} - {p4} == map[]
  {
    var src := map[p1 := a1, p2 := b2, p3 := a3, p4 := c4];
    assert (src - {p1} - {p2} - {p3} - {p4}).Keys == {};
  }

  /** A four-element sequence as its head and the rest, three times over. */
  lemma FourCons(p1: SrcPath, p2: SrcPath, p3: SrcPath, p4: SrcPath)
    ensures [p1, p2, p3, p4] == [p1] + ([p2] + ([p3] + ([p4] + [])))
  {
  }

  /**
   * The example's run for any four different source paths and any names
   * `a`, `b`, `c` whose candidates behave as those of `a.txt`, `b.txt`,
   * `c.txt` do: index 0 is the name itself, and `a`'s index 1 is `a1name`.
   */
  lemma ExampleRun(p1: SrcPath, p2: SrcPath, p3: SrcPath, p4: SrcPath, a1: Bytes, b2: Bytes, a3: Bytes, c4: Bytes,
                   a: string, b: string, c: string, a1name: string, quiet: bool)
    requires p1.name == a && p2.name == b && p3.name == a && p4.name == c
    requires NameAt(a, 0) == a && NameAt(a, 1) == a1name && NameAt(b, 0) == b && NameAt(c, 0) == c
    requires a != b && a != a1name && a != c && b != a1name && b != c && a1name != c
    requires p1 != p2 && p1 != p3 && p1 != p4 && p2 != p3 && p2 != p4 && p3 != p4
    ensures
      var r := RunAll(FsState(map[], map[p1 := a1, p2 := b2, p3 := a3, p4 := c4], []), [p1, p2, p3, p4], Options(true, quiet, false), 0);
      r.result == Completed(4)
      && r.fs.dest == map[a := a1, b := b2, a1name := a3, c := c4]
      && r.fs.sources == map[]
      && r.fs.out == if quiet then [] else [Line(MoveVerb, p1, a), Line(MoveVerb, p2, b), Line(MoveVerb, p3, a1name), Line(MoveVerb, p4, c)]
  {
    var o := Options(true, quiet, false);
    var src := map[p1 := a1, p2 := b2, p3 := a3, p4 := c4];
    ExampleSources(p1, p2, p3, p4, a1, b2, a3, c4);
    FourCons(p1, p2, p3, p4);
    ExampleRunFirst(p1, p2, [p3] + ([p4] + []), src, a, b, o);
    ExampleRunLast(p3, p4, a1, b2, src - {p1} - {p2}, [] + Announce(o, p1, a) + Announce(o, p2, b), a, b, c, a1name, o);
    ExampleLines(p1, p2, p3, p4, a, b, c, a1name, o);
  }

  /**
   * `rcopy *.txt /src /dest --move`, with or without `--quiet`: the moved
   * files end up under these names, the source tree is emptied of them, and
   * unless quiet the four `Move` lines are printed in this order.
   */
  lemma ModuleExample(quiet: bool, a1: Bytes, b2: Bytes, a3: Bytes, c4: Bytes)
    ensures
      var p1, p2, p3, p4 := SrcPath("/src/1", "a.txt"), SrcPath("/src/2", "b.txt"), SrcPath("/src/3", "a.txt"), SrcPath("/src/4/1", "c.txt");
      var r := Rcopy(FsState(map[], map[p1 := a1, p2 := b2, p3 := a3, p4 := c4], []), ExampleWalk(), EndsTxt, Options(true, quiet, false));
      r.result == Completed(4)
      && r.fs.dest == map["a.txt" := a1, "b.txt" := b2, "a(1).txt" := a3, "c.txt" := c4]
      && r.fs.sources == map[]
      && r.fs.out == if quiet then [] else
           [Line(MoveVerb, p1, "a.txt"), Line(MoveVerb, p2, "b.txt"), Line(MoveVerb, p3, "a(1).txt"), Line(MoveVerb, p4, "c.txt")]
  {
    ExampleMatched();
    var p1, p2, p3, p4 := SrcPath("/src/1", "a.txt"), SrcPath("/src/2", "b.txt"), SrcPath("/src/3", "a.txt"), SrcPath("/src/4/1", "c.txt");
    assert p1 != p3 by {
      assert p1.root[5] != p3.root[5];
    }
    Names();
    ExampleRun(p1, p2, p3, p4, a1, b2, a3, c4, "a.txt", "b.txt", "c.txt", "a(1).txt", quiet);
  }
}
