/** The option loop of main: the `-n` count check, the atime/ctime
    exclusion and the flags the other cases set. */
module Options {
  import opened Entries
  import opened Decimal

  /** isspace in the C locale: space, \t, \n, \v, \f, \r. */
  predicate IsSpace(c: char) { c == ' ' || '\t' <= c <= '\r' }

  predicate IsSpaces(s: string) { forall i :: 0 <= i < |s| ==> IsSpace(s[i]) }

  /** `while (isspace(*optarg)) optarg++`: what is left of the argument. */
  function SkipSpace(s: string): (r: string)
    ensures |r| <= |s| && r == s[|s| - |r|..]
    ensures IsSpaces(s[..|s| - |r|])
    ensures r == [] || !IsSpace(r[0])
  {
    if s != [] && IsSpace(s[0]) then
      var r := SkipSpace(s[1..]);
      assert s[1..][..|s| - 1 - |r|] == s[1..|s| - |r|];
      r
    else s
  }

  /** The length of the run of digits s starts with. */
  function DigitRun(s: string): (n: nat)
    ensures n <= |s| && IsDigits(s[..n])
    ensures n == |s| || !IsDigit(s[n])
  {
    if s != [] && IsDigit(s[0]) then
      var n := 1 + DigitRun(s[1..]);
      assert s[..n] == [s[0]] + s[1..][..n - 1];
      n
    else 0
  }

  /** LONG_MAX of an LP64 system. */
  const LongMax: nat := 0x7FFF_FFFF_FFFF_FFFF

  /** strtol's overflow rule: a value past LONG_MAX becomes LONG_MAX. */
  function Clamp(v: nat): (r: nat)
    ensures r <= LongMax && (v <= LongMax ==> r == v)
  {
    if v > LongMax then LongMax else v
  }

  /** strtol(s, &end, 10) on an argument whose leading space has been
      skipped and that does not start with '-': an optional '+', then the
      longest run of digits. The result is the value and the unconverted
      rest; with no digit at all nothing is converted, the value is 0 and
      the rest is the whole argument. */
  function Strtol(s: string): (nat, string)
  {
    var body := if s != [] && s[0] == '+' then s[1..] else s;
    var n := DigitRun(body);
    if n == 0 then (0, s) else (Clamp(DigitsValue(body[..n])), body[n..])
  }

  /** n_to_display = (int) strtol(...) for a converted value v: the cast
      keeps the low 32 bits of the long as a two's complement int, and
      storing a negative int into the unsigned long adds 2^64. */
  function StoredCount(v: nat): nat
  {
    var low := v % 0x1_0000_0000;
    if low < 0x8000_0000 then low else low - 0x1_0000_0000 + 0x1_0000_0000_0000_0000
  }

  /** The assignment keeps every count below 2^31. */
  lemma StoredCountSmall(v: nat)
    requires v < 0x8000_0000
    ensures StoredCount(v) == v
  {
  }

  /** Larger counts wrap: 2^32 is stored as 0 and 2^32 - 1 as 2^64 - 1. */
  lemma StoredCountWraps()
    ensures StoredCount(0x1_0000_0000) == 0
    ensures StoredCount(0xFFFF_FFFF) == 0xFFFF_FFFF_FFFF_FFFF
    ensures StoredCount(LongMax) == 0xFFFF_FFFF_FFFF_FFFF
  {
  }

  /** The -n check: skip leading space, refuse a leading '-', then refuse
      an argument with unconverted characters or whose stored value is 0. */
  function CountValue(optarg: string): (r: Result<nat, OptError>)
    ensures r.Ok? ==> r.value >= 1
  {
    var s := SkipSpace(optarg);
    if s != [] && s[0] == '-' then Err(NegativeCount)
    else
      var (v, rest) := Strtol(s);
      var n := StoredCount(v);
      if rest != [] || n == 0 then Err(InvalidCount(s)) else Ok(n)
  }

  /** The same check as main runs it, pointer loop and all. */
  method ParseCount(optarg: string) returns (r: Result<nat, OptError>)
    ensures r == CountValue(optarg)
  {
    var k := 0;
    while k < |optarg| && IsSpace(optarg[k])
      invariant 0 <= k <= |optarg|
      invariant SkipSpace(optarg[k..]) == SkipSpace(optarg)
    {
      assert optarg[k..][1..] == optarg[k + 1..];
      k := k + 1;
    }
    var s := optarg[k..];
    if s != [] && s[0] == '-' {
      return Err(NegativeCount);
    }
    var (v, rest) := Strtol(s);
    var n := StoredCount(v);
    if rest != [] || n == 0 {
      return Err(InvalidCount(s));
    }
    return Ok(n);
  }

  lemma {:induction false} SkipSpaceOver(ws: string, s: string)
    requires IsSpaces(ws) && (s == [] || !IsSpace(s[0]))
    ensures SkipSpace(ws + s) == s
    decreases |ws|
  {
    if ws != [] {
      assert (ws + s)[1..] == ws[1..] + s;
      SkipSpaceOver(ws[1..], s);
    } else {
      assert ws + s == s;
    }
  }

  lemma DigitRunOver(d: string, rest: string)
    requires IsDigits(d) && (rest == [] || !IsDigit(rest[0]))
    ensures DigitRun(d + rest) == |d|
    decreases |d|
  {
    if d != [] {
      assert (d + rest)[1..] == d[1..] + rest;
      DigitRunOver(d[1..], rest);
    } else {
      assert d + rest == rest;
    }
  }

  /** After leading space, the check sees the rest of the argument. */
  lemma CountAfterSpace(ws: string, s: string)
    requires IsSpaces(ws) && s != [] && !IsSpace(s[0]) && s[0] != '-'
    ensures CountValue(ws + s) ==
              if Strtol(s).1 != [] || StoredCount(Strtol(s).0) == 0 then Err(InvalidCount(s))
              else Ok(StoredCount(Strtol(s).0))
  {
    SkipSpaceOver(ws, s);
  }

  /** strtol converts the whole run of digits after the optional '+'. */
  lemma StrtolOver(plus: bool, d: string, rest: string)
    requires IsDigits(d) && d != [] && (rest == [] || !IsDigit(rest[0]))
    ensures Strtol((if plus then "+" else "") + d + rest) == (Clamp(DigitsValue(d)), rest)
  {
    var s := (if plus then "+" else "") + d + rest;
    var body := if s != [] && s[0] == '+' then s[1..] else s;
    if plus {
      assert s[0] == '+';
      assert body == d + rest;
    } else {
      assert s == d + rest;
      assert !(s[0] == '+');
    }
    DigitRunOver(d, rest);
    assert body[..|d|] == d;
    assert body[|d|..] == rest;
  }

  /** A numeral, after any leading space and with or without a '+', is
      stored as its value clamped to LONG_MAX and cast to int, and refused
      when that is 0. */
  lemma CountOfNumeral(ws: string, plus: bool, n: nat)
    requires IsSpaces(ws)
    ensures var s := (if plus then "+" else "") + Digits(n);
      CountValue(ws + s) ==
        if StoredCount(Clamp(n)) == 0 then Err(InvalidCount(s)) else Ok(StoredCount(Clamp(n)))
  {
    var d := Digits(n);
    var s := (if plus then "+" else "") + d;
    assert s[0] == (if plus then '+' else d[0]);
    StrtolNumeral(plus, n);
    CountAfterSpace(ws, s);
  }

  /** strtol converts a whole numeral to its value, clamped. */
  lemma StrtolNumeral(plus: bool, n: nat)
    ensures Strtol((if plus then "+" else "") + Digits(n)) == (Clamp(n), [])
  {
    var s := (if plus then "+" else "") + Digits(n);
    assert s + [] == s;
    StrtolOver(plus, Digits(n), []);
    DigitsRoundTrip(n);
  }

  /** Every count from 1 to 2^31 - 1 is accepted as written. */
  lemma CountAcceptsNumeral(ws: string, plus: bool, n: nat)
    requires IsSpaces(ws) && 1 <= n < 0x8000_0000
    ensures CountValue(ws + (if plus then "+" else "") + Digits(n)) == Ok(n)
  {
    assert ws + (if plus then "+" else "") + Digits(n) == ws + ((if plus then "+" else "") + Digits(n));
    CountOfNumeral(ws, plus, n);
    StoredCountSmall(n);
  }

  /** The cast lets some large counts through changed and turns others
      into a refusal: -n 4294967296 is refused, -n 4294967295 and any
      count past LONG_MAX become 2^64 - 1. */
  lemma CountWraps(n: nat)
    requires n == 0x1_0000_0000 || n == 0xFFFF_FFFF || n > LongMax
    ensures n == 0x1_0000_0000 ==> CountValue(Digits(n)).Err?
    ensures n != 0x1_0000_0000 ==> CountValue(Digits(n)) == Ok(0xFFFF_FFFF_FFFF_FFFF)
  {
    assert [] + ("" + Digits(n)) == Digits(n);
    CountOfNumeral([], false, n);
    StoredCountWraps();
  }

  /** A leading '-' is refused, whatever follows. */
  lemma CountRejectsNegative(ws: string, rest: string)
    requires IsSpaces(ws)
    ensures CountValue(ws + "-" + rest) == Err(NegativeCount)
  {
    assert ws + "-" + rest == ws + ("-" + rest);
    SkipSpaceOver(ws, "-" + rest);
  }

  /** Digits followed by anything that is not a digit are refused. */
  lemma CountRejectsTrailing(ws: string, plus: bool, d: string, junk: string)
    requires IsSpaces(ws) && IsDigits(d) && d != []
    requires junk != [] && !IsDigit(junk[0])
    ensures CountValue(ws + (if plus then "+" else "") + d + junk).Err?
  {
    var s := (if plus then "+" else "") + d + junk;
    assert ws + (if plus then "+" else "") + d + junk == ws + s;
    assert s[0] == (if plus then '+' else d[0]);
    StrtolOver(plus, d, junk);
    CountAfterSpace(ws, s);
  }

  /** A count of zero, however many zeros spell it, is refused. */
  lemma CountRejectsZero(ws: string, zeros: string)
    requires IsSpaces(ws) && zeros != []
    requires forall i :: 0 <= i < |zeros| ==> zeros[i] == '0'
    ensures CountValue(ws + zeros).Err?
  {
    ZerosValue(zeros);
    assert "" + zeros + [] == zeros;
    StrtolOver(false, zeros, []);
    CountAfterSpace(ws, zeros);
  }

  lemma {:induction false} ZerosValue(zeros: string)
    requires forall i :: 0 <= i < |zeros| ==> zeros[i] == '0'
    ensures IsDigits(zeros) && DigitsValue(zeros) == 0
  {
    if zeros != [] {
      ZerosValue(zeros[..|zeros| - 1]);
    }
  }

  /** What acceptance says of the pieces of the argument. */
  lemma CountAcceptedParts(optarg: string)
    requires CountValue(optarg).Ok?
    ensures var s := SkipSpace(optarg);
      (s == [] || s[0] != '-') && Strtol(s).1 == [] && CountValue(optarg).value == StoredCount(Strtol(s).0)
  {
  }

  /** A fully converted argument with a nonzero value is an optional '+'
      and digits. */
  lemma StrtolWhole(s: string)
    requires Strtol(s).1 == [] && Strtol(s).0 != 0
    ensures var t := if s != [] && s[0] == '+' then s[1..] else s;
      t != [] && IsDigits(t) && Strtol(s).0 == Clamp(DigitsValue(t))
  {
    var t := if s != [] && s[0] == '+' then s[1..] else s;
    var n := DigitRun(t);
    assert n == |t|;
    assert t[..n] == t;
  }

  /** An accepted argument is, after its leading space (SkipSpace), an
      optional '+' and nothing but digits spelling the count. */
  lemma CountAcceptedShape(optarg: string)
    requires CountValue(optarg).Ok?
    ensures var s := SkipSpace(optarg);
      var t := if s != [] && s[0] == '+' then s[1..] else s;
      t != [] && IsDigits(t) && StoredCount(Clamp(DigitsValue(t))) == CountValue(optarg).value
  {
    CountAcceptedParts(optarg);
    StrtolWhole(SkipSpace(optarg));
  }

  /** One option as getopt_long returns it. There is no case for 'm' (or
      't') in main's switch although getopt accepts them. */
  datatype Opt =
    | ATime | MTime | CTime | Number(arg: string) | Reverse | Help
    | IncludeDirs | Quiet | Human | IgnoreEmpty | Other(c: char)

  /** Whether the switch rejects option o after the options in prefix were
      all accepted, and why. */
  function OptionError(prefix: seq<Opt>, o: Opt): Option<OptError>
  {
    match o
    case ATime => if CTime in prefix then Some(TimeConflict) else None
    case CTime => if ATime in prefix then Some(TimeConflict) else None
    case Number(a) => if CountValue(a).Err? then Some(CountValue(a).error) else None
    case Help => Some(HelpRequested)
    case MTime => Some(BadOption)
    case Other(_) => Some(BadOption)
    case _ => None
  }

  /** Whether the switch lets every option through. */
  predicate OptionsAccepted(opts: seq<Opt>)
  {
    forall i :: 0 <= i < |opts| ==> OptionError(opts[..i], opts[i]) == None
  }

  /** The count the last -n sets, DEFAULT_DISPLAY_FILES when none. */
  function LastCount(opts: seq<Opt>): nat
  {
    if opts == [] then DefaultDisplayFiles
    else match opts[|opts| - 1]
      case Number(a) => (match CountValue(a) case Ok(n) => n case Err(_) => 0)
      case _ => LastCount(opts[..|opts| - 1])
  }

  /** The configuration a run of accepted options leaves in the globals. */
  function Settings(opts: seq<Opt>): Config
  {
    Config(ATime in opts, CTime in opts, Reverse in opts, IncludeDirs in opts,
           Quiet in opts, Human in opts, IgnoreEmpty in opts, LastCount(opts))
  }

  lemma SettingsSnoc(prefix: seq<Opt>, o: Opt)
    ensures var c := Settings(prefix);
      Settings(prefix + [o]) ==
        match o
        case ATime => c.(useAtime := true)
        case CTime => c.(useCtime := true)
        case Number(a) => c.(nToDisplay := match CountValue(a) case Ok(n) => n case Err(_) => 0)
        case Reverse => c.(reverse := true)
        case IncludeDirs => c.(includeDirs := true)
        case Quiet => c.(quietOutput := true)
        case Human => c.(humanReadable := true)
        case IgnoreEmpty => c.(ignoreEmpty := true)
        case _ => c
  {
    assert (prefix + [o])[..|prefix|] == prefix;
    forall x: Opt ensures x in prefix + [o] <==> x in prefix || x == o {
    }
  }

  /** -m is listed in the usage text, yet any command line holding it is
      refused: the switch has no case for it. */
  lemma MTimeRefused(opts: seq<Opt>)
    requires MTime in opts
    ensures !OptionsAccepted(opts)
  {
    var m :| 0 <= m < |opts| && opts[m] == MTime;
    assert OptionError(opts[..m], opts[m]) == Some(BadOption);
  }

  /** Both -a and -c, in either order, are always refused. */
  lemma BothTimesRejected(opts: seq<Opt>)
    requires ATime in opts && CTime in opts
    ensures exists i :: 0 <= i < |opts| && OptionError(opts[..i], opts[i]).Some?
  {
    var a :| 0 <= a < |opts| && opts[a] == ATime;
    var c :| 0 <= c < |opts| && opts[c] == CTime;
    if a < c {
      assert opts[..c][a] == ATime;
      assert OptionError(opts[..c], opts[c]) == Some(TimeConflict);
    } else {
      assert opts[..a][c] == CTime;
      assert OptionError(opts[..a], opts[a]) == Some(TimeConflict);
    }
  }

  /** One case of main's switch: rejects the option or records it. */
  method ApplyOption(ghost prefix: seq<Opt>, cfg: Config, o: Opt) returns (err: Option<OptError>, next: Config)
    requires cfg == Settings(prefix)
    ensures err == OptionError(prefix, o)
    ensures err.None? ==> next == Settings(prefix + [o])
  {
    SettingsSnoc(prefix, o);
    err, next := None, cfg;
    match o {
      case ATime =>
        if cfg.useCtime {
          err := Some(TimeConflict);
        } else {
          next := cfg.(useAtime := true);
        }
      case CTime =>
        if cfg.useAtime {
          err := Some(TimeConflict);
        } else {
          next := cfg.(useCtime := true);
        }
      case Number(a) =>
        var n := ParseCount(a);
        if n.Err? {
          err := Some(n.error);
        } else {
          next := cfg.(nToDisplay := n.value);
        }
      case Help =>
        err := Some(HelpRequested);
      case Reverse =>
        next := cfg.(reverse := true);
      case IncludeDirs =>
        next := cfg.(includeDirs := true);
      case Quiet =>
        next := cfg.(quietOutput := true);
      case Human =>
        next := cfg.(humanReadable := true);
      case IgnoreEmpty =>
        next := cfg.(ignoreEmpty := true);
      case MTime =>
        err := Some(BadOption);
      case Other(_) =>
        err := Some(BadOption);
    }
  }

  lemma AcceptedStep(opts: seq<Opt>, i: nat)
    requires i < |opts| && OptionsAccepted(opts[..i]) && OptionError(opts[..i], opts[i]) == None
    ensures OptionsAccepted(opts[..i + 1])
  {
    var p, q := opts[..i + 1], opts[..i];
    forall j | 0 <= j < |p|
      ensures OptionError(p[..j], p[j]) == None
    {
      if j < i {
        assert p[..j] == q[..j];
        assert OptionError(q[..j], q[j]) == None;
      } else {
        assert p[..j] == q;
      }
    }
  }

  lemma PrefixSnoc(opts: seq<Opt>, i: nat)
    requires i < |opts|
    ensures opts[..i + 1] == opts[..i] + [opts[i]]
  {
  }

  lemma RejectedAt(opts: seq<Opt>, i: nat)
    requires i < |opts| && OptionError(opts[..i], opts[i]).Some?
    ensures !OptionsAccepted(opts)
  {
  }

  /** The getopt loop of main: the options in order, the first rejected one
      ending the run. */
  method ParseOptions(opts: seq<Opt>) returns (r: Result<Config, OptError>)
    ensures r.Ok? <==> OptionsAccepted(opts)
    ensures r.Err? ==> exists i :: 0 <= i < |opts| && OptionsAccepted(opts[..i]) &&
                          OptionError(opts[..i], opts[i]) == Some(r.error)
    ensures r.Ok? ==> r.value == Settings(opts)
    ensures r.Ok? ==> r.value.nToDisplay >= 1 && !(r.value.useAtime && r.value.useCtime)
    ensures ATime in opts && CTime in opts ==> r.Err?
  {
    var cfg := DefaultConfig;
    var i := 0;
    while i < |opts|
      invariant 0 <= i <= |opts|
      invariant OptionsAccepted(opts[..i])
      invariant cfg == Settings(opts[..i])
      invariant cfg.nToDisplay >= 1
    {
      var err, next := ApplyOption(opts[..i], cfg, opts[i]);
      if err.Some? {
        RejectedAt(opts, i);
        r := Err(err.value);
        return;
      }
      AcceptedStep(opts, i);
      PrefixSnoc(opts, i);
      cfg := next;
      i := i + 1;
    }
    assert opts[..i] == opts;
    if ATime in opts && CTime in opts {
      BothTimesRejected(opts);
    }
    r := Ok(cfg);
  }
}
