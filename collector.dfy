/** push_result and process: the growable results array that the walk
    fills, and the per-visit filter in front of it. */
module Collector {
  import opened Entries
  import opened Ordering
  import opened Reporter

  /** push_result's choice of timestamp: atime, else ctime, else mtime. */
  function SelectTime(cfg: Config, sb: Stat): int
  {
    if cfg.useAtime then sb.atime else if cfg.useCtime then sb.ctime else sb.mtime
  }

  /** The entry push_result builds for a visit: the chosen time and the
      path exactly as nftw gave it (a leading "./" is kept). */
  function EntryOf(cfg: Config, v: Visit): Entry
  {
    Entry(SelectTime(cfg, v.sb), v.path)
  }

  /** Whether process hands the visit to push_result. */
  predicate Accepted(cfg: Config, v: Visit)
  {
    !(cfg.ignoreEmpty && v.sb.size == 0) && (v.flag == F || (v.flag == D && cfg.includeDirs))
  }

  /** The diagnostic process writes for the visit, if any. */
  function Warning(cfg: Config, v: Visit): Option<Diagnostic>
  {
    if cfg.ignoreEmpty && v.sb.size == 0 then None
    else match v.flag
      case DNR => Some(UnableToRead(v.path))
      case NS => Some(CouldNotStat(v.path))
      case _ => None
  }

  function Added(cfg: Config, v: Visit): seq<Entry>
  {
    if Accepted(cfg, v) then [EntryOf(cfg, v)] else []
  }

  function WarningLines(cfg: Config, v: Visit): seq<Diagnostic>
  {
    match Warning(cfg, v)
    case Some(d) => [d]
    case None => []
  }

  lemma AppendAssoc<T>(a: seq<T>, b: seq<T>, c: seq<T>)
    ensures (a + b) + c == a + (b + c)
  {
  }

  lemma VisitStep(cfg: Config, vs: seq<Visit>, i: nat)
    requires i < |vs|
    ensures Collected(cfg, vs[..i + 1]) == Collected(cfg, vs[..i]) + Added(cfg, vs[i])
    ensures Warnings(cfg, vs[..i + 1]) == Warnings(cfg, vs[..i]) + WarningLines(cfg, vs[i])
  {
    assert vs[..i + 1][..i] == vs[..i];
  }

  /** The entries a walk that makes the visits vs appends, in visit order. */
  function Collected(cfg: Config, vs: seq<Visit>): seq<Entry>
  {
    if vs == [] then [] else Collected(cfg, vs[..|vs| - 1]) + Added(cfg, vs[|vs| - 1])
  }

  /** The diagnostics such a walk writes, in visit order. */
  function Warnings(cfg: Config, vs: seq<Visit>): seq<Diagnostic>
  {
    if vs == [] then [] else Warnings(cfg, vs[..|vs| - 1]) + WarningLines(cfg, vs[|vs| - 1])
  }

  /** process's policy for a single visit. */
  lemma VisitPolicy(cfg: Config, v: Visit)
    ensures cfg.ignoreEmpty && v.sb.size == 0 ==> Added(cfg, v) == [] && Warning(cfg, v) == None
    ensures !(cfg.ignoreEmpty && v.sb.size == 0) ==>
              (v.flag == F ==> Added(cfg, v) == [Entry(SelectTime(cfg, v.sb), v.path)]) &&
              (v.flag == D ==> Added(cfg, v) == (if cfg.includeDirs then [Entry(SelectTime(cfg, v.sb), v.path)] else [])) &&
              (v.flag == DNR ==> Added(cfg, v) == [] && Warning(cfg, v) == Some(UnableToRead(v.path))) &&
              (v.flag == NS ==> Added(cfg, v) == [] && Warning(cfg, v) == Some(CouldNotStat(v.path))) &&
              (v.flag == SL ==> Added(cfg, v) == [] && Warning(cfg, v) == None)
    ensures Warning(cfg, v).Some? ==> Added(cfg, v) == []
  {
  }

  /** The timestamp follows the option that was given. */
  lemma SelectTimeFollowsOption(cfg: Config, sb: Stat)
    requires !(cfg.useAtime && cfg.useCtime)
    ensures cfg.useAtime ==> SelectTime(cfg, sb) == sb.atime
    ensures cfg.useCtime ==> SelectTime(cfg, sb) == sb.ctime
    ensures !cfg.useAtime && !cfg.useCtime ==> SelectTime(cfg, sb) == sb.mtime
  {
  }

  /** Walks over consecutive stretches of visits add up. */
  lemma {:induction false} CollectedAppend(cfg: Config, vs: seq<Visit>, ws: seq<Visit>)
    ensures Collected(cfg, vs + ws) == Collected(cfg, vs) + Collected(cfg, ws)
    decreases |ws|
  {
    if ws == [] {
      assert vs + ws == vs;
    } else {
      assert (vs + ws)[..|vs + ws| - 1] == vs + ws[..|ws| - 1];
      CollectedAppend(cfg, vs, ws[..|ws| - 1]);
    }
  }

  lemma {:induction false} WarningsAppend(cfg: Config, vs: seq<Visit>, ws: seq<Visit>)
    ensures Warnings(cfg, vs + ws) == Warnings(cfg, vs) + Warnings(cfg, ws)
    decreases |ws|
  {
    if ws == [] {
      assert vs + ws == vs;
    } else {
      assert (vs + ws)[..|vs + ws| - 1] == vs + ws[..|ws| - 1];
      WarningsAppend(cfg, vs, ws[..|ws| - 1]);
    }
  }

  /** An entry is collected exactly when some accepted visit produced it. */
  lemma {:induction false} CollectedMembership(cfg: Config, vs: seq<Visit>, e: Entry)
    ensures e in Collected(cfg, vs) <==>
              exists i :: 0 <= i < |vs| && Accepted(cfg, vs[i]) && e == EntryOf(cfg, vs[i])
  {
    if vs != [] {
      var front := vs[..|vs| - 1];
      CollectedMembership(cfg, front, e);
      if e in Collected(cfg, vs) {
        if e in Collected(cfg, front) {
          var i :| 0 <= i < |front| && Accepted(cfg, front[i]) && e == EntryOf(cfg, front[i]);
          assert vs[i] == front[i];
        } else {
          assert Accepted(cfg, vs[|vs| - 1]) && e == EntryOf(cfg, vs[|vs| - 1]);
        }
      }
      if exists i :: 0 <= i < |vs| && Accepted(cfg, vs[i]) && e == EntryOf(cfg, vs[i]) {
        var i :| 0 <= i < |vs| && Accepted(cfg, vs[i]) && e == EntryOf(cfg, vs[i]);
        if i < |vs| - 1 {
          assert front[i] == vs[i];
        }
      }
    }
  }

  /** The filters hold of everything collected: without includeDirs every
      entry comes from a regular-file visit, with ignoreEmpty none comes
      from an object of size 0. */
  lemma CollectedFilter(cfg: Config, vs: seq<Visit>, e: Entry)
    requires e in Collected(cfg, vs)
    ensures exists i :: 0 <= i < |vs| && vs[i].path == e.fileName &&
              (vs[i].flag == F || (cfg.includeDirs && vs[i].flag == D)) &&
              (cfg.ignoreEmpty ==> vs[i].sb.size != 0)
  {
    CollectedMembership(cfg, vs, e);
  }

  /** The results array and its length, the two globals push_result grows. */
  class ResultSet {
    var results: array<Entry>
    var resultTotal: nat

    ghost predicate Valid()
      reads this
    {
      results.Length == resultTotal
    }

    function Contents(): seq<Entry>
      reads this, results
    {
      results[..]
    }

    /** results == NULL, result_total == 0 */
    constructor ()
      ensures Valid() && Contents() == [] && resultTotal == 0 && fresh(results)
    {
      results := new Entry[0];
      resultTotal := 0;
    }

    /** push_result(sort_time, file_name) of the earlier variant: realloc to
        one more slot, store the new entry at index result_total, bump the count. */
    method Append(sortTime: int, fileName: string)
      requires Valid()
      modifies this
      ensures Valid() && fresh(results)
      ensures resultTotal == old(resultTotal) + 1
      ensures Contents() == old(Contents()) + [Entry(sortTime, fileName)]
    {
      var total, previous := resultTotal, results;
      var grown := new Entry[total + 1];
      var i := 0;
      while i < total
        invariant 0 <= i <= total
        invariant grown[..i] == previous[..i]
      {
        grown[i] := previous[i];
        i := i + 1;
      }
      grown[total] := Entry(sortTime, fileName);
      assert grown[..] == previous[..] + [Entry(sortTime, fileName)];
      results := grown;
      resultTotal := total + 1;
    }

    /** push_result(sb, file_name): the timestamp is picked by the flags. */
    method PushResult(cfg: Config, sb: Stat, fileName: string)
      requires Valid()
      modifies this
      ensures Valid() && fresh(results)
      ensures resultTotal == old(resultTotal) + 1
      ensures Contents() == old(Contents()) + [Entry(SelectTime(cfg, sb), fileName)]
      ensures Contents()[..old(resultTotal)] == old(Contents())
    {
      var sortTime;
      if cfg.useAtime {
        sortTime := sb.atime;
      } else if cfg.useCtime {
        sortTime := sb.ctime;
      } else {
        sortTime := sb.mtime;
      }
      Append(sortTime, fileName);
    }

    /** process: the nftw callback. Skips empty objects under ignoreEmpty,
        warns on DNR and NS, pushes files, and directories when asked,
        ignores symbolic links (no case matches them);
        always returns 0 so that the walk goes on. */
    method Process(cfg: Config, file: string, sb: Stat, flag: Flag) returns (ret: int, diag: Option<Diagnostic>)
      requires Valid()
      modifies this
      ensures Valid() && (results == old(results) || fresh(results))
      ensures ret == 0
      ensures Contents() == old(Contents()) + Added(cfg, Visit(flag, file, sb))
      ensures diag == Warning(cfg, Visit(flag, file, sb))
    {
      ret, diag := 0, None;
      if cfg.ignoreEmpty && sb.size == 0 {
        return;
      }
      match flag {
        case DNR =>
          diag := Some(UnableToRead(file));
        case NS =>
          diag := Some(CouldNotStat(file));
        case D =>
          if cfg.includeDirs {
            PushResult(cfg, sb, file);
          }
        case F =>
          PushResult(cfg, sb, file);
        case SL =>
      }
    }

    /** nftw over one root: the callback on every visit in order. Since
        process always returns 0, the walk is never cut short. */
    method Walk(cfg: Config, visits: seq<Visit>) returns (warnings: seq<Diagnostic>)
      requires Valid()
      modifies this
      ensures Valid() && (results == old(results) || fresh(results))
      ensures Contents() == old(Contents()) + Collected(cfg, visits)
      ensures warnings == Warnings(cfg, visits)
    {
      ghost var start := Contents();
      warnings := [];
      var i := 0;
      while i < |visits|
        invariant 0 <= i <= |visits|
        invariant Valid() && (results == old(results) || fresh(results))
        invariant Contents() == start + Collected(cfg, visits[..i])
        invariant warnings == Warnings(cfg, visits[..i])
      {
        var v := visits[i];
        ghost var done := Collected(cfg, visits[..i]);
        VisitStep(cfg, visits, i);
        var ret, diag := Process(cfg, v.path, v.sb, v.flag);
        AppendAssoc(start, done, Added(cfg, v));
        if diag.Some? {
          warnings := warnings + [diag.value];
        }
        i := i + 1;
      }
      assert visits[..i] == visits;
    }

    /** qsort(results, result_total, sizeof(ENTRY *), entry_compare) */
    method SortResults(reverse: bool)
      requires Valid()
      modifies results
      ensures Valid()
      ensures Sorted(Contents(), reverse)
      ensures multiset(Contents()) == multiset(old(Contents()))
    {
      SortInPlace(results, reverse);
    }

    /** show_output, with the loop bounded by result_total as well as by
        n_to_display. */
    method ShowOutput(cfg: Config, human: int -> string) returns (out: seq<string>)
      requires Valid()
      ensures out == Report(Contents(), cfg, human)
    {
      out := [];
      if resultTotal == 0 {
        return;
      }
      var i := 0;
      while i < cfg.nToDisplay && i < resultTotal
        invariant 0 <= i <= resultTotal && i <= cfg.nToDisplay
        invariant |out| == i
        invariant forall k :: 0 <= k < i ==> out[k] == RenderLine(cfg, human, results[k])
      {
        out := out + [RenderLine(cfg, human, results[i])];
        i := i + 1;
      }
    }
  }
}
