/** main: the options, the fail-fast loop over the directory arguments,
    the sort and the report. */
module Newest {
  import opened Entries
  import opened Ordering
  import opened Reporter
  import opened Collector
  import opened Options

  /** A directory argument: what stat says of it and the visits nftw
      makes under it. */
  datatype Root = Root(name: string, present: bool, isDirectory: bool, visits: seq<Visit>)

  predicate Resolves(r: Root) { r.present && r.isDirectory }

  /** The message main writes for a root it refuses. */
  function RootError(r: Root): Diagnostic
  {
    if !r.present then NotThere(r.name) else NotADirectory(r.name)
  }

  /** The index of the first root that does not resolve, |roots| if all do. */
  function FirstBadRoot(roots: seq<Root>): (k: nat)
    ensures k <= |roots|
    ensures forall j :: 0 <= j < k ==> Resolves(roots[j])
    ensures k < |roots| ==> !Resolves(roots[k])
  {
    if roots == [] then 0
    else if !Resolves(roots[0]) then 0
    else
      var k := 1 + FirstBadRoot(roots[1..]);
      assert forall j :: 1 <= j < k ==> roots[j] == roots[1..][j - 1];
      k
  }

  /** The visits of the roots, one root after the other. */
  function AllVisits(roots: seq<Root>): seq<Visit>
  {
    if roots == [] then [] else AllVisits(roots[..|roots| - 1]) + roots[|roots| - 1].visits
  }

  lemma AllVisitsStep(roots: seq<Root>, i: nat)
    requires i < |roots|
    ensures AllVisits(roots[..i + 1]) == AllVisits(roots[..i]) + roots[i].visits
  {
    assert roots[..i + 1][..i] == roots[..i];
  }

  /** Walking one more root adds its visits' entries and diagnostics. */
  lemma RootStep(cfg: Config, roots: seq<Root>, i: nat)
    requires i < |roots|
    ensures Collected(cfg, AllVisits(roots[..i + 1])) == Collected(cfg, AllVisits(roots[..i])) + Collected(cfg, roots[i].visits)
    ensures Warnings(cfg, AllVisits(roots[..i + 1])) == Warnings(cfg, AllVisits(roots[..i])) + Warnings(cfg, roots[i].visits)
  {
    AllVisitsStep(roots, i);
    CollectedAppend(cfg, AllVisits(roots[..i]), roots[i].visits);
    WarningsAppend(cfg, AllVisits(roots[..i]), roots[i].visits);
  }

  /** One turn of main's loop for a root that resolves: nftw over it, on
      top of what the roots before it have collected. */
  method WalkRoot(rs: ResultSet, cfg: Config, roots: seq<Root>, i: nat, ghost start: seq<Entry>, err: seq<Diagnostic>)
    returns (err': seq<Diagnostic>)
    requires i < |roots|
    requires rs.Valid() && rs.Contents() == start + Collected(cfg, AllVisits(roots[..i]))
    requires err == Warnings(cfg, AllVisits(roots[..i]))
    modifies rs
    ensures rs.Valid() && (rs.results == old(rs.results) || fresh(rs.results))
    ensures rs.Contents() == start + Collected(cfg, AllVisits(roots[..i + 1]))
    ensures err' == Warnings(cfg, AllVisits(roots[..i + 1]))
  {
    ghost var done, more := Collected(cfg, AllVisits(roots[..i])), Collected(cfg, roots[i].visits);
    RootStep(cfg, roots, i);
    var warnings := rs.Walk(cfg, roots[i].visits);
    AppendAssoc(start, done, more);
    err' := err + warnings;
  }

  /** The walks of the leading roots that resolve, stopping at the first
      that does not. */
  method WalkResolved(rs: ResultSet, cfg: Config, roots: seq<Root>) returns (i: nat, err: seq<Diagnostic>)
    requires rs.Valid()
    modifies rs
    ensures rs.Valid() && (rs.results == old(rs.results) || fresh(rs.results))
    ensures i == FirstBadRoot(roots)
    ensures rs.Contents() == old(rs.Contents()) + Collected(cfg, AllVisits(roots[..i]))
    ensures err == Warnings(cfg, AllVisits(roots[..i]))
  {
    ghost var start := rs.Contents();
    err := [];
    i := 0;
    while i < |roots| && Resolves(roots[i])
      invariant 0 <= i <= FirstBadRoot(roots)
      invariant rs.Valid() && (rs.results == old(rs.results) || fresh(rs.results))
      invariant rs.Contents() == start + Collected(cfg, AllVisits(roots[..i]))
      invariant err == Warnings(cfg, AllVisits(roots[..i]))
    {
      err := WalkRoot(rs, cfg, roots, i, start, err);
      i := i + 1;
    }
  }

  /** The loop over the directory arguments: each is stat'ed and walked in
      turn, and the first that is missing or not a directory ends the run,
      after everything before it has been walked. */
  method WalkRoots(rs: ResultSet, cfg: Config, roots: seq<Root>) returns (ok: bool, err: seq<Diagnostic>)
    requires rs.Valid()
    modifies rs
    ensures rs.Valid() && (rs.results == old(rs.results) || fresh(rs.results))
    ensures ok <==> FirstBadRoot(roots) == |roots|
    ensures rs.Contents() == old(rs.Contents()) + Collected(cfg, AllVisits(roots[..FirstBadRoot(roots)]))
    ensures ok ==> err == Warnings(cfg, AllVisits(roots))
    ensures !ok ==> err == Warnings(cfg, AllVisits(roots[..FirstBadRoot(roots)])) + [RootError(roots[FirstBadRoot(roots)])]
  {
    var i;
    i, err := WalkResolved(rs, cfg, roots);
    assert roots[..|roots|] == roots;
    ok := i == |roots|;
    if !ok {
      if !roots[i].present {
        err := err + [NotThere(roots[i].name)];
      } else {
        err := err + [NotADirectory(roots[i].name)];
      }
    }
  }

  /** main after its option loop: no directory argument is an error; then
      the roots are walked, the results sorted and shown. The sorted
      sequence is returned as a ghost witness, since ties may leave in any
      order. */
  method Run(cfg: Config, roots: seq<Root>, human: int -> string)
    returns (status: int, out: seq<string>, err: seq<Diagnostic>, ghost sorted: seq<Entry>)
    ensures status == ExitSuccess <==> |roots| > 0 && FirstBadRoot(roots) == |roots|
    ensures status != ExitSuccess ==> status == ExitFailure && out == []
    ensures |roots| == 0 ==> err == [NoDirectoryGiven]
    ensures |roots| > 0 ==> var k := FirstBadRoot(roots);
      err == Warnings(cfg, AllVisits(roots[..k])) + (if k < |roots| then [RootError(roots[k])] else [])
    ensures status == ExitSuccess ==>
      Sorted(sorted, cfg.reverse) &&
      multiset(sorted) == multiset(Collected(cfg, AllVisits(roots))) &&
      out == Report(sorted, cfg, human)
  {
    sorted := [];
    if |roots| == 0 {
      return ExitFailure, [], [NoDirectoryGiven], sorted;
    }
    var rs := new ResultSet();
    var ok;
    ok, err := WalkRoots(rs, cfg, roots);
    if !ok {
      return ExitFailure, [], err, sorted;
    }
    assert roots[..|roots|] == roots;
    rs.SortResults(cfg.reverse);
    sorted := rs.Contents();
    out := rs.ShowOutput(cfg, human);
    status := ExitSuccess;
  }

  /** The whole program over already-split options: a rejected option ends
      the run before any root is looked at (-h with status 0, its help text
      not modelled). */
  method Program(opts: seq<Opt>, roots: seq<Root>, human: int -> string)
    returns (status: int, out: seq<string>, err: seq<Diagnostic>, ghost sorted: seq<Entry>)
    ensures !OptionsAccepted(opts) ==> out == []
    ensures !OptionsAccepted(opts) ==>
              exists i :: 0 <= i < |opts| && OptionsAccepted(opts[..i]) && OptionError(opts[..i], opts[i]).Some? &&
                (var e := OptionError(opts[..i], opts[i]).value;
                 if e == HelpRequested then status == ExitSuccess && err == []
                 else status == ExitFailure && err == [Usage(e)])
    ensures ATime in opts && CTime in opts ==> !OptionsAccepted(opts)
    ensures OptionsAccepted(opts) ==> var cfg := Settings(opts);
      (status == ExitSuccess <==> |roots| > 0 && FirstBadRoot(roots) == |roots|) &&
      (status != ExitSuccess ==> status == ExitFailure && out == []) &&
      (|roots| == 0 ==> err == [NoDirectoryGiven]) &&
      (|roots| > 0 ==> var k := FirstBadRoot(roots);
        err == Warnings(cfg, AllVisits(roots[..k])) + (if k < |roots| then [RootError(roots[k])] else [])) &&
      (status == ExitSuccess ==>
        Sorted(sorted, cfg.reverse) &&
        multiset(sorted) == multiset(Collected(cfg, AllVisits(roots))) &&
        out == Report(sorted, cfg, human))
  {
    sorted := [];
    var parsed := ParseOptions(opts);
    if parsed.Err? {
      if parsed.error == HelpRequested {
        return ExitSuccess, [], [], sorted;
      }
      return ExitFailure, [], [Usage(parsed.error)], sorted;
    }
    status, out, err, sorted := Run(parsed.value, roots, human);
  }
}
