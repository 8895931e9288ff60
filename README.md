# ICUMessageSourceSupport: the memoising message formatter

`ICUMessageSourceSupport` (spring-icu) formats a raw message text with
ICU4J's `MessageFormat` for a locale and a set of arguments. It caches the
compiled format for each (message, locale) pair in a two-level table,
`messageFormatsPerMessage`: message text → locale → format. A text that
is not a valid pattern is remembered with the `INVALID_MESSAGE_FORMAT`
sentinel and passed through verbatim, unless `alwaysUseMessageFormat` is
set, in which case the compilation error reaches the caller.

The model has three modules:

- `IcuFormat` (`format_model.dfy`) holds the data model and one call of
  `formatMessage` as a function on values, `FormatStep`. A cache entry is
  `Compiled(format)` or `Invalid` (the sentinel). A null message is
  `None`. A call ends in `Returned(text)` or `Thrown(error)`. `FormatStep`
  also reports which pairs `createMessageFormat` was called for.
  `DirectFormat` is the same request answered without any cache.
  `FormatStepMatchesDirect` proves that caching is transparent.
- `IcuFormatTraces` (`format_traces.dfy`) runs a sequence of calls against
  one cache. Each request carries its own enforcement flag, since the
  setter may be called between requests. It proves these facts:
  - compilation is accounted for exactly;
  - a pair is compiled at most once unless enforcement made its
    compilation throw;
  - the sentinel is sticky;
  - stored entries are never replaced.
- `MessageSource` (`message_source_support.dfy`) is the class itself. It
  has the flag, the cache field, and a ghost log of `createMessageFormat`
  calls. `FormatMessage` runs the Java method's steps in order: the early
  return, the table lookup, registering an empty per-locale table for a
  new message, compiling on a miss, storing the entry, and the sentinel
  check. Its contract ties the result, the new cache and the new log to
  `FormatStep`. It keeps the invariant `Valid()`: every cached entry is
  what compiling its pair produces.
  `CreateMessageFormat` and `ResolveArguments` are the default
  delegations: the ICU constructor, and the arguments as given. Their role
  is stated elsewhere. The `compiled` clause of `FormatStep` says when
  `createMessageFormat` is called and for which pair. `Valid()` says each
  entry is what compiling its pair produced. `FormatStep`'s result shows
  that the original arguments are formatted, since `formatMessage`
  discards the hook's result.

The foreign pieces are fields of the datatype `Icu`, given to the
constructor:

- the ICU `MessageFormat` constructor, which compiles or throws
  `IllegalArgumentException`;
- `ICUMessageArguments.isEmpty`;
- `ICUMessageArguments.formatWith`.

`Locale`, `MessageFormat`, `Arguments` and the exception are opaque types.
`Locale` is compared with equality.

A consequence the proofs make explicit: the sentinel is stored only while
enforcement is off. If enforcement is switched on later, a request for
that pair still passes the message through, where an uncached formatter
would throw. `FormatStepMatchesDirect` states this exception
(`StaleSentinel`). `RunMatchesDirect` shows that a run with enforcement
on and no sentinel at the start never meets it.

## Model

| member | source | states |
|---|---|---|
| `IcuFormat.FormatStep` | src/main/java/com/devtrigger/grails/icu/ICUMessageSourceSupport.java:87-124 | A null message, or empty arguments with enforcement off, returns the message and leaves the cache and the compile log untouched. Otherwise the message has a per-locale table afterwards, even when the call throws. `createMessageFormat` is called exactly when the pair is missing, and only for that pair. Entries that existed are kept, and no other pair changes. The call throws only when compilation fails under enforcement; it then throws that compilation's error and stores no entry for the locale. Otherwise the result is the message for the sentinel, or the cached format applied to the arguments. A new entry is the compiled format, or the sentinel after a failure. |
| `IcuFormat.FormatStepMatchesDirect` | src/main/java/com/devtrigger/grails/icu/ICUMessageSourceSupport.java:87-124 | Over a coherent cache, the memoised answer equals the uncached one (`DirectFormat`), except for a sentinel met with enforcement on. There the message is returned where a fresh compilation would throw. Coherence is preserved. |
| `IcuFormatTraces.RunKeepsEntries` | src/main/java/com/devtrigger/grails/icu/ICUMessageSourceSupport.java:93-115 | Over any sequence of calls, a stored entry is never replaced or removed. Its pair is never compiled again and never throws. |
| `IcuFormatTraces.CompilationsAccounted` | src/main/java/com/devtrigger/grails/icu/ICUMessageSourceSupport.java:101-115 | Over any sequence of calls, the compilations of a pair equal the calls that threw on it, plus one if the pair became cached during the run. |
| `IcuFormatTraces.CompiledAtMostOnce` | src/main/java/com/devtrigger/grails/icu/ICUMessageSourceSupport.java:101-115 | A pair whose compilation never threw is compiled at most once over the cache's lifetime. A pair cached beforehand is never compiled. |
| `IcuFormatTraces.SentinelIsSticky` | src/main/java/com/devtrigger/grails/icu/ICUMessageSourceSupport.java:105-118 | Once a pair holds the sentinel, it keeps it. Every later request for the pair returns the message unchanged, with any arguments and either enforcement setting, and the pair is never recompiled. |
| `IcuFormatTraces.RunMatchesDirect` | src/main/java/com/devtrigger/grails/icu/ICUMessageSourceSupport.java:87-124 | From a coherent cache, every answer to a request with enforcement off equals the uncached answer. When every request enforces and no sentinel is cached at the start, every answer equals the uncached answer. |
| `MessageSource.IcuMessageSourceSupport.constructor` | src/main/java/com/devtrigger/grails/icu/ICUMessageSourceSupport.java:17-30 | A new object has enforcement off, an empty cache and no compilations. |
| `MessageSource.IcuMessageSourceSupport.SetAlwaysUseMessageFormat` | src/main/java/com/devtrigger/grails/icu/ICUMessageSourceSupport.java:47-57 | After setting the flag, `IsAlwaysUseMessageFormat` returns the value set. Only the flag changes. |
| `MessageSource.IcuMessageSourceSupport.FormatMessage` | src/main/java/com/devtrigger/grails/icu/ICUMessageSourceSupport.java:87-124 | The result, the new cache and the new compile log are those of `FormatStep` at the current flag and cache. The coherence invariant `Valid()` is kept. Unless a sentinel is met with enforcement on, the result equals the uncached answer `DirectFormat`. |
| `MessageSource.IcuMessageSourceSupport.RenderDefaultMessage` | src/main/java/com/devtrigger/grails/icu/ICUMessageSourceSupport.java:73-75 | Rendering a default message has the same result, the same cache effect and the same compilations as `FormatMessage`, and equals the uncached answer under the same condition. |
| `MessageSource.FormatTwice` | src/main/java/com/devtrigger/grails/icu/ICUMessageSourceSupport.java:93-115 | Two identical calls on one object give the same answer. If the first call did not throw, the pair is compiled at most once. If it threw, nothing was stored, so the pair is compiled twice and the same error is thrown again. |

## Left out

- Thread safety: the `synchronized` blocks at lines 92 and 121 are not modelled. The object is single-threaded and each call is atomic. The concurrent guarantee of a single compilation per pair is therefore not stated.
- ICU `MessageFormat` pattern syntax and argument substitution: they belong to the ICU library. They are the uninterpreted fields `compile` and `formatWith` of `Icu`.
- `ICUMessageArguments` is not part of this model. Its `isEmpty` and `formatWith` are the uninterpreted fields `isEmpty` and `formatWith` of `Icu`.
- The `logger` field (line 20) is unused by the logic and is not modelled.
- The identity comparison with `INVALID_MESSAGE_FORMAT` (lines 17 and 117) is modelled as the tagged entry `Invalid`, not as Java reference equality.
- MessageSource.IcuMessageSourceSupport.CreateMessageFormat: takes a non-null text. The null guard at line 133 is unreachable from `formatMessage`, which returns early on a null message at line 88.
- A null `args` is not modelled, although the Javadoc allows null arguments. With enforcement off, the Java code calls `args.isEmpty()` at line 88 and throws `NullPointerException`. With enforcement on, it throws that exception at line 122 only when a compiled format is reached. A cached sentinel returns the message at lines 117-118 instead. A failed compilation throws the `IllegalArgumentException` at line 109.
- Aliasing of the per-locale `HashMap`: the table is a value, so after line 114 the updated table is written back under its message. No other code holds the table, so the observable cache is the same.
- Subclass overrides of `createMessageFormat`, `resolveArguments` and `renderDefaultMessage` are not modelled; the defaults are. Compilation is a function, so it is deterministic for a given pair.
- Exceptions raised by `isEmpty`, `formatWith`, or by compilation with a type other than `IllegalArgumentException` are not modelled.
