/**
  ICUMessageSourceSupport: the object that owns the message-format cache
  and the enforcement flag, with formatMessage written step by step as
  the Java method runs it. Each call is tied to FormatStep, whose
  contract and lemmas say what the cache does.
 */
module MessageSource {
  import opened IcuFormat

  class IcuMessageSourceSupport {
    /** The ICU library and argument operations this object calls into. */
    const icu: Icu

    var alwaysUseMessageFormat: bool

    /** Already compiled formats (or the sentinel), per message, per locale. */
    var messageFormatsPerMessage: Cache

    /** Every pair createMessageFormat was called for, in call order. */
    ghost var compileLog: seq<Key>

    /** Every cached entry is what compiling its pair produces. */
    ghost predicate Valid()
      reads this`messageFormatsPerMessage
    {
      Coherent(icu, messageFormatsPerMessage)
    }

    constructor (icu: Icu)
      ensures Valid()
      ensures this.icu == icu && !alwaysUseMessageFormat
      ensures messageFormatsPerMessage == map[] && compileLog == []
    {
      this.icu := icu;
      alwaysUseMessageFormat := false;
      messageFormatsPerMessage := map[];
      compileLog := [];
    }

    method SetAlwaysUseMessageFormat(alwaysUseMessageFormat: bool)
      modifies this`alwaysUseMessageFormat
      ensures IsAlwaysUseMessageFormat() == alwaysUseMessageFormat
    {
      this.alwaysUseMessageFormat := alwaysUseMessageFormat;
    }

    function IsAlwaysUseMessageFormat(): bool
      reads this`alwaysUseMessageFormat
    {
      alwaysUseMessageFormat
    }

    /** Default messages are formatted exactly as any other message. */
    method RenderDefaultMessage(defaultMessage: Option<string>, args: Arguments, locale: Locale) returns (out: Outcome)
      requires Valid()
      modifies this`messageFormatsPerMessage, this`compileLog
      ensures Valid()
      ensures var s := FormatStep(icu, alwaysUseMessageFormat, old(messageFormatsPerMessage), defaultMessage, args, locale);
              out == s.outcome && messageFormatsPerMessage == s.cache && compileLog == old(compileLog) + s.compiled
      ensures !StaleSentinel(alwaysUseMessageFormat, old(messageFormatsPerMessage), defaultMessage, locale) ==>
                out == DirectFormat(icu, alwaysUseMessageFormat, defaultMessage, args, locale)
    {
      out := FormatMessage(defaultMessage, args, locale);
    }

    method FormatMessage(msg: Option<string>, args: Arguments, locale: Locale) returns (out: Outcome)
      requires Valid()
      modifies this`messageFormatsPerMessage, this`compileLog
      ensures Valid()
      ensures var s := FormatStep(icu, alwaysUseMessageFormat, old(messageFormatsPerMessage), msg, args, locale);
              out == s.outcome && messageFormatsPerMessage == s.cache && compileLog == old(compileLog) + s.compiled
      ensures !StaleSentinel(alwaysUseMessageFormat, old(messageFormatsPerMessage), msg, locale) ==>
                out == DirectFormat(icu, alwaysUseMessageFormat, msg, args, locale)
    {
      ghost var step := FormatStep(icu, alwaysUseMessageFormat, messageFormatsPerMessage, msg, args, locale);
      FormatStepMatchesDirect(icu, alwaysUseMessageFormat, messageFormatsPerMessage, msg, args, locale);
      if msg.None? || (!alwaysUseMessageFormat && icu.isEmpty(args)) {
        return Returned(msg);
      }
      var text := msg.value;
      var messageFormat: Option<Entry> := None;
      var messageFormatsPerLocale: map<Locale, Entry>;
      if text in messageFormatsPerMessage {
        messageFormatsPerLocale := messageFormatsPerMessage[text];
        if locale in messageFormatsPerLocale {
          messageFormat := Some(messageFormatsPerLocale[locale]);
        }
      } else {
        messageFormatsPerLocale := map[];
        messageFormatsPerMessage := messageFormatsPerMessage[text := messageFormatsPerLocale];
      }
      if messageFormat.None? {
        var created := CreateMessageFormat(text, locale);
        compileLog := compileLog + [(text, locale)];
        match created {
          case Parsed(f) =>
            messageFormat := Some(Compiled(f));
          case Rejected(e) =>
            if alwaysUseMessageFormat {
              return Thrown(e);
            }
            messageFormat := Some(Invalid);
        }
        // the per-locale table is a value here, so the updated table is stored back under its message
        messageFormatsPerLocale := messageFormatsPerLocale[locale := messageFormat.value];
        messageFormatsPerMessage := messageFormatsPerMessage[text := messageFormatsPerLocale];
      }
      assert messageFormatsPerMessage == step.cache;
      if messageFormat.value.Invalid? {
        return Returned(msg);
      }
      var _ := ResolveArguments(args, locale);
      out := Returned(Some(icu.formatWith(args, messageFormat.value.format)));
    }

    /** Compiles a message for a locale with the ICU MessageFormat constructor. */
    function CreateMessageFormat(msg: string, locale: Locale): Parse
    {
      icu.compile(msg, locale)
    }

    /** The hook for resolving argument objects; by default the arguments as given. */
    function ResolveArguments(args: Arguments, locale: Locale): Arguments
    {
      args
    }
  }

  /**
    A client of the class: formatting the same request twice gives the same
    answer both times. The pair is compiled at most once, unless the first
    call threw; then nothing was stored and the second call compiles again.
   */
  method FormatTwice(source: IcuMessageSourceSupport, msg: Option<string>, args: Arguments, locale: Locale)
    returns (first: Outcome, second: Outcome)
    requires source.Valid()
    modifies source
    ensures source.Valid()
    ensures second == first
    ensures !first.Thrown? ==> |source.compileLog| <= |old(source.compileLog)| + 1
    ensures first.Thrown? ==> |source.compileLog| == |old(source.compileLog)| + 2
  {
    first := source.FormatMessage(msg, args, locale);
    second := source.FormatMessage(msg, args, locale);
  }
}
