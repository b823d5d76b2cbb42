/** show_output: the lines written to standard output for the sorted
    entries. */
module Reporter {
  import opened Entries
  import opened Decimal

  /** One output line, without its newline: the name alone when quiet;
      otherwise the name, a tab and the time, the time written by `human`
      (localtime and strftime "%c") when humanReadable and as a decimal
      numeral otherwise. */
  function RenderLine(cfg: Config, human: int -> string, e: Entry): string
  {
    if cfg.quietOutput then e.fileName
    else if cfg.humanReadable then e.fileName + "\t" + human(e.sortTime)
    else e.fileName + "\t" + DecimalString(e.sortTime)
  }

  /** A line holds the whole name, and in numeric mode the time after the
      tab reads back as the entry's timestamp. */
  lemma LineReadsBack(cfg: Config, human: int -> string, e: Entry)
    ensures var line := RenderLine(cfg, human, e);
      |line| >= |e.fileName| && line[..|e.fileName|] == e.fileName &&
      (cfg.quietOutput ==> line == e.fileName) &&
      (!cfg.quietOutput ==> |line| > |e.fileName| && line[|e.fileName|] == '\t') &&
      (!cfg.quietOutput && !cfg.humanReadable ==>
         ParseDecimal(line[|e.fileName| + 1..]) == Some(e.sortTime))
  {
    var line := RenderLine(cfg, human, e);
    if !cfg.quietOutput && !cfg.humanReadable {
      assert line[|e.fileName| + 1..] == DecimalString(e.sortTime);
      DecimalRoundTrip(e.sortTime);
    }
  }

  function Min(a: nat, b: nat): nat { if a <= b then a else b }

  /** What show_output is meant to print: the first nToDisplay entries, or
      all of them when there are fewer, one line each, in order. */
  function Report(s: seq<Entry>, cfg: Config, human: int -> string): (out: seq<string>)
    ensures |out| == Min(cfg.nToDisplay, |s|)
    ensures forall i :: 0 <= i < |out| ==> out[i] == RenderLine(cfg, human, s[i])
  {
    seq(Min(cfg.nToDisplay, |s|), i requires 0 <= i < Min(cfg.nToDisplay, |s|) => RenderLine(cfg, human, s[i]))
  }

  /** show_output as written: nothing when no entry was ever pushed
      (results is NULL), otherwise lines for indices 0 .. nToDisplay-1 with
      no bound on result_total. None stands for the read past the end of
      results (undefined behaviour). */
  function ShowOutputAsWritten(s: seq<Entry>, cfg: Config, human: int -> string): Option<seq<string>>
  {
    if s == [] then Some([])
    else if cfg.nToDisplay > |s| then None
    else Some(seq(cfg.nToDisplay, i requires 0 <= i < cfg.nToDisplay => RenderLine(cfg, human, s[i])))
  }

  /** One file collected and `-n 2`: the loop reads results[1]. */
  lemma AsWrittenReadsPastEnd(human: int -> string)
    ensures var cfg := DefaultConfig.(nToDisplay := 2);
      ShowOutputAsWritten([Entry(0, "./a")], cfg, human) == None &&
      Report([Entry(0, "./a")], cfg, human) == [RenderLine(cfg, human, Entry(0, "./a"))]
  {
  }

  /** Where the loop stays in bounds, the code as written prints exactly
      the intended report. */
  lemma AsWrittenAgreesInBounds(s: seq<Entry>, cfg: Config, human: int -> string)
    ensures ShowOutputAsWritten(s, cfg, human).Some? <==> (s == [] || cfg.nToDisplay <= |s|)
    ensures ShowOutputAsWritten(s, cfg, human).Some? ==>
              ShowOutputAsWritten(s, cfg, human).value == Report(s, cfg, human)
  {
  }
}
