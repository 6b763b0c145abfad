/**
 * Log levels: parsing the configured level, the verbosity gate of each
 * leveled logging function, the logr sink's `Enabled` and message
 * formatting. Where the messages go (syslog or stderr) is left out.
 */
module Logger {
  import opened Wrappers
  import opened Text

  /** A syslog priority: smaller is more severe. */
  type Priority = int

  const LOG_EMERG: Priority := 0
  const LOG_ALERT: Priority := 1
  const LOG_CRIT: Priority := 2
  const LOG_ERR: Priority := 3
  const LOG_WARNING: Priority := 4
  const LOG_NOTICE: Priority := 5
  const LOG_INFO: Priority := 6
  const LOG_DEBUG: Priority := 7

  /** The configured log level, ignoring case; the error carries the rejected text. */
  function ParseLogLevel(s: string): (r: Result<Priority, string>)
    ensures r.Success? ==> LOG_CRIT <= r.value <= LOG_DEBUG
    ensures r.Failure? ==> r.error == s
  {
    var n := ToLower(s);
    if n == "debug" then Success(LOG_DEBUG)
    else if n == "info" then Success(LOG_INFO)
    else if n == "notice" then Success(LOG_NOTICE)
    else if n == "warning" || n == "warn" then Success(LOG_WARNING)
    else if n == "err" || n == "error" then Success(LOG_ERR)
    else if n == "crit" || n == "critical" then Success(LOG_CRIT)
    else Failure(s)
  }

  /** The accepted spellings of each level, in lower case. */
  function Spellings(p: Priority): set<string> {
    if p == LOG_DEBUG then {"debug"}
    else if p == LOG_INFO then {"info"}
    else if p == LOG_NOTICE then {"notice"}
    else if p == LOG_WARNING then {"warning", "warn"}
    else if p == LOG_ERR then {"err", "error"}
    else if p == LOG_CRIT then {"crit", "critical"}
    else {}
  }

  /** A level parses to `p` exactly when its lower-case form is one of p's spellings. */
  lemma ParseLogLevelSpellings(s: string, p: Priority)
    ensures ParseLogLevel(s) == Success(p) <==> ToLower(s) in Spellings(p)
  {
  }

  /** Case does not matter. */
  lemma ParseLogLevelIgnoresCase(s: string)
    ensures ParseLogLevel(ToLower(s)).Success? == ParseLogLevel(s).Success?
    ensures ParseLogLevel(s).Success? ==> ParseLogLevel(ToLower(s)) == ParseLogLevel(s)
  {
    var n := ToLower(s);
    assert ToLower(n) == n;
  }

  // ---------------------------------------------------------------------
  // Leveled logging functions

  /** Debugf, Infof, Noticef, Warningf, Errf and Critf. */
  datatype Logf = Debugf | Infof | Noticef | Warningf | Errf | Critf

  /** The priority each function writes at. */
  function LogfPriority(f: Logf): (p: Priority)
    ensures LOG_CRIT <= p <= LOG_DEBUG
  {
    match f
    case Debugf => LOG_DEBUG
    case Infof => LOG_INFO
    case Noticef => LOG_NOTICE
    case Warningf => LOG_WARNING
    case Errf => LOG_ERR
    case Critf => LOG_CRIT
  }

  /** The configured level named after each function. */
  function LevelName(f: Logf): string {
    match f
    case Debugf => "debug"
    case Infof => "info"
    case Noticef => "notice"
    case Warningf => "warning"
    case Errf => "err"
    case Critf => "crit"
  }

  /** Each function gates on the priority of the level it is named after. */
  lemma LogfPriorityOfName(f: Logf)
    ensures ParseLogLevel(LevelName(f)) == Success(LogfPriority(f))
    ensures LevelName(f) in Spellings(LogfPriority(f))
  {
    var n := LevelName(f);
    assert ToLower(n) == n;
  }

  /** The six functions gate on six priorities, from Critf, the most severe, down to Debugf. */
  lemma LogfPriorityOrder()
    ensures LogfPriority(Critf) < LogfPriority(Errf) < LogfPriority(Warningf)
            < LogfPriority(Noticef) < LogfPriority(Infof) < LogfPriority(Debugf)
  {
  }

  /**
   * At the verbosity a configured level names, a function writes exactly
   * when its own level is that one or a more severe one.
   */
  lemma LoggedAtLevel<A>(level: string, v: Priority, f: Logf, sprintf: (string, seq<A>) -> string,
                         message: string, args: seq<A>)
    requires ParseLogLevel(level) == Success(v)
    ensures Logged(v, f, sprintf, message, args).Some? <==> exists p :: ParseLogLevel(LevelName(f)) == Success(p) && p <= v
  {
    LogfPriorityOfName(f);
  }

  /** The template `format` hands to fmt.Sprintf: the message trimmed of surrounding white space, then one newline. */
  function Template(message: string): (t: string)
    ensures |t| > 0 && t[|t| - 1] == '\n'
    ensures t[..|t| - 1] == TrimSpace(message)
  {
    TrimSpace(message) + "\n"
  }

  /**
   * format: fmt.Sprintf applied to the template and the arguments. The
   * formatter is a parameter: its verb substitution is not modelled.
   */
  function Format<A>(sprintf: (string, seq<A>) -> string, message: string, args: seq<A>): (r: string)
    ensures r == sprintf(TrimSpace(message) + "\n", args)
  {
    sprintf(Template(message), args)
  }

  /** The line a logging function writes at the given verbosity, if any. */
  function Logged<A>(verbosity: Priority, f: Logf, sprintf: (string, seq<A>) -> string,
                     message: string, args: seq<A>): (r: Option<string>)
    ensures r.Some? <==> verbosity >= LogfPriority(f)
    ensures r.Some? ==> r.value == Format(sprintf, message, args)
  {
    if verbosity < LogfPriority(f) then None else Some(Format(sprintf, message, args))
  }

  /** Raising the verbosity never silences a message. */
  lemma LoggedMonotonic<A>(v: Priority, w: Priority, f: Logf, sprintf: (string, seq<A>) -> string,
                           message: string, args: seq<A>)
    requires v <= w && Logged(v, f, sprintf, message, args).Some?
    ensures Logged(w, f, sprintf, message, args) == Logged(v, f, sprintf, message, args)
  {
  }

  /** White space around the message never reaches the formatter. */
  lemma FormatIgnoresSurroundingSpace<A>(sprintf: (string, seq<A>) -> string, message: string, args: seq<A>)
    ensures Format(sprintf, TrimSpace(message), args) == Format(sprintf, message, args)
  {
  }

  /**
   * Without verbs and arguments, and with a formatter that copies such a
   * template unchanged (as fmt.Sprintf does), the line written is the
   * trimmed message and a newline.
   */
  lemma FormatPlain<A>(sprintf: (string, seq<A>) -> string, message: string)
    requires forall t :: '%' !in t ==> sprintf(t, []) == t
    requires '%' !in message
    ensures Format(sprintf, message, []) == TrimSpace(message) + "\n"
  {
  }

  /** A trimmed string is its own trimming. */
  lemma TrimSpaceOfTrimmed(t: string)
    requires |t| == 0 || (!IsUnicodeSpace(t[0]) && !IsUnicodeSpace(t[|t| - 1]))
    ensures TrimSpace(t) == t
  {
    assert TrimLeft(t) == t;
  }

  // ---------------------------------------------------------------------
  // The logr sink

  /** sink.Enabled: negative levels count as 0; 0 needs NOTICE, 1 INFO, more DEBUG. */
  function SinkEnabled(verbosity: Priority, level: int): (r: bool)
    ensures level <= 0 ==> (r <==> verbosity >= LOG_NOTICE)
    ensures level == 1 ==> (r <==> verbosity >= LOG_INFO)
    ensures level >= 2 ==> (r <==> verbosity >= LOG_DEBUG)
  {
    var l := if level < 0 then 0 else level;
    if l == 0 then verbosity >= LOG_NOTICE
    else if l == 1 then verbosity >= LOG_INFO
    else verbosity >= LOG_DEBUG
  }

  /** A level enabled at some verbosity stays enabled at any higher verbosity and any lower level. */
  lemma SinkEnabledMonotonic(v: Priority, w: Priority, level: int, lower: int)
    requires v <= w && lower <= level && SinkEnabled(v, level)
    ensures SinkEnabled(w, level)
    ensures SinkEnabled(v, lower)
  {
  }

  /** The priority sink.Info writes at: level 0 as an error, 1 as info, above as debug. */
  function SinkInfoPriority(level: int): (p: Priority)
    ensures level <= 0 ==> p == LOG_ERR
    ensures level == 1 ==> p == LOG_INFO
    ensures level >= 2 ==> p == LOG_DEBUG
  {
    var l := if level < 0 then 0 else level;
    if l == 0 then LOG_ERR else if l == 1 then LOG_INFO else LOG_DEBUG
  }

  /** The line sink.Error and sink.Info format: the message, a colon, and the arguments. */
  function SinkMessage<A>(sprintf: (string, seq<A>) -> string, msg: A, args: A): (r: string)
    ensures r == sprintf("%s: %v\n", [msg, args])
  {
    TrimSpaceOfTrimmed("%s: %v");
    assert "%s: %v" + "\n" == "%s: %v\n";
    Format(sprintf, "%s: %v", [msg, args])
  }

  /** sink.Error writes at verbosity ERR or above, exactly when Errf would, and then the sink's line. */
  function SinkError<A>(verbosity: Priority, sprintf: (string, seq<A>) -> string, msg: A, args: A): (r: Option<string>)
    ensures r.Some? <==> Logged(verbosity, Errf, sprintf, "", []).Some?
    ensures r.Some? ==> r.value == sprintf("%s: %v\n", [msg, args])
  {
    if verbosity < LOG_ERR then None else Some(SinkMessage(sprintf, msg, args))
  }
}
