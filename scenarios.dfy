/** Small trees and command lines, and what the program makes of them. */
module Scenarios {
  import opened Entries
  import opened Ordering
  import opened Reporter
  import opened Collector
  import opened Options
  import opened Newest

  /** Files a, b and c with modification times 100, 300 and 200. */
  function TreeABC(): seq<Visit>
  {
    [Visit(F, "./a", Stat(1, 0, 100, 0)),
     Visit(F, "./b", Stat(1, 0, 300, 0)),
     Visit(F, "./c", Stat(1, 0, 200, 0))]
  }

  lemma CollectedABC(cfg: Config)
    requires !cfg.useAtime && !cfg.useCtime
    ensures Collected(cfg, TreeABC()) == [Entry(100, "./a"), Entry(300, "./b"), Entry(200, "./c")]
  {
    var t := TreeABC();
    assert t == [t[0]] + [t[1]] + [t[2]];
    CollectedAppend(cfg, [t[0]] + [t[1]], [t[2]]);
    CollectedAppend(cfg, [t[0]], [t[1]]);
    CollectedOne(cfg, t[0]);
    CollectedOne(cfg, t[1]);
    CollectedOne(cfg, t[2]);
  }

  lemma CollectedOne(cfg: Config, v: Visit)
    ensures Collected(cfg, [v]) == Added(cfg, v)
  {
    assert [v][..0] == [];
  }

  lemma OneOfThree(e: Entry, x: Entry, y: Entry, z: Entry)
    requires e in multiset{x, y, z}
    ensures e == x || e == y || e == z
  {
  }

  /** An entry of three whose times differ is fixed by its time. */
  lemma PinByTime(s: seq<Entry>, byTime: seq<Entry>, i: nat)
    requires |byTime| == 3 && i < |s| && Times(s) == Times(byTime)
    requires byTime[0].sortTime != byTime[1].sortTime && byTime[1].sortTime != byTime[2].sortTime
    requires byTime[0].sortTime != byTime[2].sortTime
    requires multiset(s) == multiset(byTime)
    ensures s[i] == byTime[i]
  {
    assert s[i] in multiset(s);
    assert byTime == [byTime[0], byTime[1], byTime[2]];
    OneOfThree(s[i], byTime[0], byTime[1], byTime[2]);
    assert s[i].sortTime == Times(s)[i] == Times(byTime)[i] == byTime[i].sortTime;
  }

  /** Any order the sort may leave three entries of distinct times in is
      the one by time. */
  lemma SortedThree(s: seq<Entry>, reverse: bool, byTime: seq<Entry>)
    requires |byTime| == 3
    requires var t := Times(byTime); if reverse then t[0] < t[1] < t[2] else t[0] > t[1] > t[2]
    requires multiset(s) == multiset(byTime) && Sorted(s, reverse)
    ensures s == byTime
  {
    SortedByTime(byTime, reverse);
    SortedTimesDetermined(s, byTime, reverse);
    assert |s| == |Times(s)| == 3;
    PinByTime(s, byTime, 0);
    PinByTime(s, byTime, 1);
    PinByTime(s, byTime, 2);
  }

  /** Newest first, the sort leaves b, c, a. */
  lemma NewestFirstABC(s: seq<Entry>)
    requires Sorted(s, false)
    requires multiset(s) == multiset(Collected(DefaultConfig, TreeABC()))
    ensures s == [Entry(300, "./b"), Entry(200, "./c"), Entry(100, "./a")]
  {
    CollectedABC(DefaultConfig);
    SortedThree(s, false, [Entry(300, "./b"), Entry(200, "./c"), Entry(100, "./a")]);
  }

  /** Newest first, two results: b, then c. */
  lemma ScenarioA(s: seq<Entry>, human: int -> string)
    requires Sorted(s, false)
    requires multiset(s) == multiset(Collected(DefaultConfig, TreeABC()))
    ensures Report(s, DefaultConfig.(nToDisplay := 2, quietOutput := true), human) == ["./b", "./c"]
  {
    NewestFirstABC(s);
    var out := Report(s, DefaultConfig.(nToDisplay := 2, quietOutput := true), human);
    assert |out| == 2 && out[0] == "./b" && out[1] == "./c";
  }

  /** Oldest first, the sort leaves a, c, b. */
  lemma OldestFirstABC(s: seq<Entry>)
    requires Sorted(s, true)
    requires multiset(s) == multiset(Collected(DefaultConfig.(reverse := true), TreeABC()))
    ensures s == [Entry(100, "./a"), Entry(200, "./c"), Entry(300, "./b")]
  {
    CollectedABC(DefaultConfig.(reverse := true));
    SortedThree(s, true, [Entry(100, "./a"), Entry(200, "./c"), Entry(300, "./b")]);
  }

  /** Oldest first, one result: a. */
  lemma ScenarioB(s: seq<Entry>, human: int -> string)
    requires Sorted(s, true)
    requires multiset(s) == multiset(Collected(DefaultConfig.(reverse := true), TreeABC()))
    ensures Report(s, DefaultConfig.(reverse := true, quietOutput := true), human) == ["./a"]
  {
    OldestFirstABC(s);
    var out := Report(s, DefaultConfig.(reverse := true, quietOutput := true), human);
    assert |out| == 1 && out[0] == "./a";
  }

  /** With ignoreEmpty, the empty file e is not collected and f is. */
  lemma ScenarioC()
    ensures var cfg := DefaultConfig.(ignoreEmpty := true);
      Collected(cfg, [Visit(F, "./e", Stat(0, 0, 10, 0)), Visit(F, "./f", Stat(5, 0, 20, 0))]) == [Entry(20, "./f")]
  {
    var vs := [Visit(F, "./e", Stat(0, 0, 10, 0)), Visit(F, "./f", Stat(5, 0, 20, 0))];
    assert vs[..1][..0] == [] && vs[..2] == vs;
  }

  /** A root that is a regular file: failure, one message, no output. */
  method ScenarioD(human: int -> string) returns (status: int, out: seq<string>, err: seq<Diagnostic>)
    ensures status == ExitFailure && out == [] && err == [NotADirectory("notes.txt")]
  {
    var roots := [Root("notes.txt", true, false, [])];
    assert FirstBadRoot(roots) == 0;
    assert roots[..0] == [];
    ghost var sorted;
    status, out, err, sorted := Run(DefaultConfig, roots, human);
  }

  /** -a and -c together: refused with a usage error before any root is
      looked at. */
  method ScenarioE(roots: seq<Root>, human: int -> string) returns (status: int, out: seq<string>, err: seq<Diagnostic>)
    ensures status == ExitFailure && out == [] && err == [Usage(TimeConflict)]
  {
    var opts := [ATime, CTime];
    assert opts[..1] == [ATime];
    assert OptionError(opts[..1], opts[1]) == Some(TimeConflict);
    assert OptionError(opts[..0], opts[0]) == None;
    ghost var sorted;
    status, out, err, sorted := Program(opts, roots, human);
  }
}
