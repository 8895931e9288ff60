/**
  The memoising formatter of ICUMessageSourceSupport, as values.

  The cache maps a raw message text to a per-locale table of compiled
  formats; an entry is either a compiled ICU MessageFormat or the
  INVALID_MESSAGE_FORMAT sentinel. FormatStep is one call of formatMessage:
  what it returns (or throws), the cache it leaves behind, and the
  createMessageFormat calls it makes. DirectFormat is the same request
  answered without any cache; the lemmas relate the two.
 */
module IcuFormat {

  /** java.util.Locale, compared by equals. */
  type Locale(==, !new)

  /** A compiled com.ibm.icu.text.MessageFormat. */
  type MessageFormat

  /** An ICUMessageArguments value. */
  type Arguments

  /** The IllegalArgumentException raised for a text that is not a pattern. */
  type PatternError

  datatype Option<T> = None | Some(value: T)

  /** What `new MessageFormat(msg, locale)` does: compile, or throw. */
  datatype Parse = Parsed(format: MessageFormat) | Rejected(error: PatternError)

  /**
    The collaborators the class consumes but does not define: the ICU
    MessageFormat constructor, and ICUMessageArguments' isEmpty and
    formatWith.
   */
  datatype Icu = Icu(
    compile: (string, Locale) -> Parse,
    isEmpty: Arguments -> bool,
    formatWith: (Arguments, MessageFormat) -> string)

  /** A cache entry: a compiled format, or the "not a pattern" sentinel. */
  datatype Entry = Compiled(format: MessageFormat) | Invalid

  /** messageFormatsPerMessage: message text -> locale -> entry. */
  type Cache = map<string, map<Locale, Entry>>

  /** A (message, locale) pair, the unit of compilation. */
  type Key = (string, Locale)

  /** How a call of formatMessage ends: a (possibly null) string, or an exception. */
  datatype Outcome = Returned(text: Option<string>) | Thrown(error: PatternError)

  /**
    One call of formatMessage: its outcome, the cache afterwards, and the
    pairs for which createMessageFormat was called (none or one).
   */
  datatype Step = Step(outcome: Outcome, cache: Cache, compiled: seq<Key>)

  function Lookup(cache: Cache, msg: string, locale: Locale): Option<Entry>
  {
    if msg in cache && locale in cache[msg] then Some(cache[msg][locale]) else None
  }

  /** The early return of formatMessage: no message, or no arguments and no enforcement. */
  predicate PassesThrough(icu: Icu, enforce: bool, msg: Option<string>, args: Arguments)
  {
    msg.None? || (!enforce && icu.isEmpty(args))
  }

  /** The last step of formatMessage, once an entry has been found or stored. */
  function Finish(icu: Icu, msg: string, args: Arguments, entry: Entry): Outcome
  {
    match entry
    case Invalid => Returned(Some(msg))
    case Compiled(f) => Returned(Some(icu.formatWith(args, f)))
  }

  /**
    formatMessage(msg, args, locale) with alwaysUseMessageFormat == enforce,
    run against `cache`.
   */
  function FormatStep(icu: Icu, enforce: bool, cache: Cache, msg: Option<string>, args: Arguments, locale: Locale): (s: Step)
    // the early return touches nothing and compiles nothing
    ensures PassesThrough(icu, enforce, msg, args) ==> s == Step(Returned(msg), cache, [])
    // otherwise the message always has a per-locale table afterwards, even when the call throws
    ensures s.cache.Keys == cache.Keys + (if PassesThrough(icu, enforce, msg, args) then {} else {msg.value})
    // createMessageFormat is called exactly on a cache miss, and only for the requested pair
    ensures s.compiled == (if !PassesThrough(icu, enforce, msg, args) && Lookup(cache, msg.value, locale).None?
                           then [(msg.value, locale)] else [])
    // every entry that existed is kept, and no pair other than the requested one changes
    ensures forall m, l {:trigger Lookup(s.cache, m, l)} ::
              Lookup(cache, m, l).Some? || msg != Some(m) || l != locale ==> Lookup(s.cache, m, l) == Lookup(cache, m, l)
    // an exception comes only from a failed compilation under enforcement, and leaves no entry
    ensures s.outcome.Thrown? <==> s.compiled != [] && enforce && icu.compile(msg.value, locale).Rejected?
    ensures s.outcome.Thrown? ==> s.outcome.error == icu.compile(msg.value, locale).error
                                  && Lookup(s.cache, msg.value, locale).None?
    // any other call that goes past the early return finishes with the pair's entry
    ensures !PassesThrough(icu, enforce, msg, args) && !s.outcome.Thrown? ==>
              Lookup(s.cache, msg.value, locale).Some?
              && s.outcome == Finish(icu, msg.value, args, Lookup(s.cache, msg.value, locale).value)
    // a newly stored entry is what compilation produced: the format, or the sentinel
    ensures s.compiled != [] && !s.outcome.Thrown? ==>
              Lookup(s.cache, msg.value, locale).value
                == (match icu.compile(msg.value, locale) case Parsed(f) => Compiled(f) case Rejected(_) => Invalid)
  {
    if PassesThrough(icu, enforce, msg, args) then
      Step(Returned(msg), cache, [])
    else
      var m := msg.value;
      // lines 93-100: fetch the message's table, registering an empty one if absent
      var perLocale := (if m in cache then cache[m] else map[]);
      var registered := cache[m := perLocale];
      if locale in perLocale then
        Step(Finish(icu, m, args, perLocale[locale]), registered, [])
      else
        match icu.compile(m, locale)
        case Rejected(e) =>
          if enforce then Step(Thrown(e), registered, [(m, locale)])
          else Step(Returned(msg), registered[m := perLocale[locale := Invalid]], [(m, locale)])
        case Parsed(f) =>
          Step(Returned(Some(icu.formatWith(args, f))), registered[m := perLocale[locale := Compiled(f)]], [(m, locale)])
  }

  /** The same request answered by compiling afresh, without a cache. */
  function DirectFormat(icu: Icu, enforce: bool, msg: Option<string>, args: Arguments, locale: Locale): Outcome
  {
    if PassesThrough(icu, enforce, msg, args) then Returned(msg)
    else
      match icu.compile(msg.value, locale)
      case Rejected(e) => if enforce then Thrown(e) else Returned(msg)
      case Parsed(f) => Returned(Some(icu.formatWith(args, f)))
  }

  /** An entry is what compiling its own pair produces. */
  predicate Faithful(icu: Icu, msg: string, locale: Locale, entry: Entry)
  {
    match entry
    case Compiled(f) => icu.compile(msg, locale) == Parsed(f)
    case Invalid => icu.compile(msg, locale).Rejected?
  }

  /** Every cached entry is what compiling its pair produces. */
  ghost predicate Coherent(icu: Icu, cache: Cache)
  {
    forall m, l {:trigger Lookup(cache, m, l)} :: Lookup(cache, m, l).Some? ==> Faithful(icu, m, l, Lookup(cache, m, l).value)
  }

  /**
    A sentinel stored while enforcement was off, met by a call with
    enforcement on: the cached answer passes the message through where a
    fresh compilation would throw.
   */
  predicate StaleSentinel(enforce: bool, cache: Cache, msg: Option<string>, locale: Locale)
  {
    enforce && msg.Some? && Lookup(cache, msg.value, locale) == Some(Invalid)
  }

  /**
    Caching is transparent: over a coherent cache, formatMessage answers as
    an uncached formatter would, except for a stale sentinel; and it keeps
    the cache coherent.
   */
  lemma FormatStepMatchesDirect(icu: Icu, enforce: bool, cache: Cache, msg: Option<string>, args: Arguments, locale: Locale)
    requires Coherent(icu, cache)
    ensures Coherent(icu, FormatStep(icu, enforce, cache, msg, args, locale).cache)
    ensures FormatStep(icu, enforce, cache, msg, args, locale).outcome
            == if StaleSentinel(enforce, cache, msg, locale) then Returned(msg)
               else DirectFormat(icu, enforce, msg, args, locale)
    ensures StaleSentinel(enforce, cache, msg, locale) ==> DirectFormat(icu, enforce, msg, args, locale).Thrown?
  {
  }
}
