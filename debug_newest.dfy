/** The earlier variant of the program (debug/src/newest.c): the same
    results array, with the timestamp fixed to ctime, directories never
    collected, no size filter, oldest first and every entry shown as a bare
    timestamp. */
module DebugNewest {
  import opened Entries
  import opened Decimal
  import opened Ordering
  import opened Collector

  /** The settings under which the later components behave as this
      variant's: ctime, oldest first, files only, no size filter, numeric
      output. */
  const DebugConfig: Config := Config(false, true, true, false, false, false, false, DefaultDisplayFiles)

  /** entry_compare of this variant: the sign of e1 - e2, whatever the
      reverse flag says. */
  function EntryCompare(e1: Entry, e2: Entry): (r: int)
    ensures r == 0 <==> e1.sortTime == e2.sortTime
  {
    var diff := e1.sortTime - e2.sortTime;
    if diff < 0 then -1 else if diff > 0 then 1 else 0
  }

  /** It is the later comparator with reverse set: oldest first. */
  lemma EntryCompareOldestFirst(e1: Entry, e2: Entry)
    ensures EntryCompare(e1, e2) == Compare(true, e1, e2)
    ensures EntryCompare(e1, e2) < 0 <==> e1.sortTime < e2.sortTime
    ensures EntryCompare(e1, e2) > 0 <==> e1.sortTime > e2.sortTime
  {
  }

  /** This variant's process, visit by visit: a file is collected with its
      ctime, a directory, a link or a failed visit never is, and only the failed
      visits are reported, whatever their size. */
  lemma ProcessPolicy(v: Visit)
    ensures Added(DebugConfig, v) == (if v.flag == F then [Entry(v.sb.ctime, v.path)] else [])
    ensures Warning(DebugConfig, v) ==
              match v.flag
              case DNR => Some(UnableToRead(v.path))
              case NS => Some(CouldNotStat(v.path))
              case _ => None
  {
  }

  /** A walk collects exactly the regular files, each as (ctime, path). */
  lemma CollectsFilesOnly(vs: seq<Visit>, e: Entry)
    ensures e in Collected(DebugConfig, vs) <==>
              exists i :: 0 <= i < |vs| && vs[i].flag == F && e == Entry(vs[i].sb.ctime, vs[i].path)
  {
    CollectedMembership(DebugConfig, vs, e);
  }

  /** process of this variant: DNR and NS are reported, a directory ends
      the callback at once, a file is pushed with its ctime, a symbolic
      link matches no case; always 0. */
  method Process(rs: ResultSet, file: string, sb: Stat, flag: Flag) returns (ret: int, diag: Option<Diagnostic>)
    requires rs.Valid()
    modifies rs
    ensures rs.Valid() && (rs.results == old(rs.results) || fresh(rs.results))
    ensures ret == 0
    ensures rs.Contents() == old(rs.Contents()) + Added(DebugConfig, Visit(flag, file, sb))
    ensures diag == Warning(DebugConfig, Visit(flag, file, sb))
  {
    ret, diag := 0, None;
    match flag {
      case DNR =>
        diag := Some(UnableToRead(file));
      case NS =>
        diag := Some(CouldNotStat(file));
      case D =>
        return;
      case F =>
        rs.Append(sb.ctime, file);
      case SL =>
    }
  }

  /** The qsort call of this variant: the results in non-decreasing time. */
  method SortOldestFirst(rs: ResultSet)
    requires rs.Valid()
    modifies rs.results
    ensures rs.Valid()
    ensures forall i, j :: 0 <= i < j < |rs.Contents()| ==> rs.Contents()[i].sortTime <= rs.Contents()[j].sortTime
    ensures multiset(rs.Contents()) == multiset(old(rs.Contents()))
  {
    rs.SortResults(true);
    SortedByTime(rs.Contents(), true);
  }

  /** What show_output of this variant prints: every entry's time as a
      decimal numeral, one per line, no name and no count limit. */
  function Report(s: seq<Entry>): (out: seq<string>)
    ensures |out| == |s|
  {
    seq(|s|, i requires 0 <= i < |s| => DecimalString(s[i].sortTime))
  }

  /** Read back, the printed lines are the column of times. */
  lemma ReportReadsBack(s: seq<Entry>)
    ensures forall i :: 0 <= i < |s| ==> ParseDecimal(Report(s)[i]) == Some(Times(s)[i])
  {
    forall i | 0 <= i < |s|
      ensures ParseDecimal(Report(s)[i]) == Some(Times(s)[i])
    {
      DecimalRoundTrip(s[i].sortTime);
    }
  }

  /** show_output of this variant, a loop over all result_total entries. */
  method ShowOutput(rs: ResultSet) returns (out: seq<string>)
    requires rs.Valid()
    ensures out == Report(rs.Contents())
  {
    out := [];
    if rs.resultTotal == 0 {
      return;
    }
    var i := 0;
    while i < rs.resultTotal
      invariant 0 <= i <= rs.resultTotal
      invariant |out| == i
      invariant forall k :: 0 <= k < i ==> out[k] == DecimalString(rs.results[k].sortTime)
    {
      out := out + [DecimalString(rs.results[i].sortTime)];
      i := i + 1;
    }
  }
}
