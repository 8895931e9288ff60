/**
  Sequences of formatMessage calls against one cache, as the cache lives
  for the lifetime of its owner (it is never evicted). Each request
  carries its own enforcement flag, since setAlwaysUseMessageFormat may be
  called between requests.
 */
module IcuFormatTraces {
  import opened IcuFormat

  datatype Request = Request(enforce: bool, msg: Option<string>, args: Arguments, locale: Locale)

  /**
    The outcome of every request in order, the final cache, the pairs
    createMessageFormat was called for, and the pairs whose call threw.
   */
  datatype Trace = Trace(outcomes: seq<Outcome>, cache: Cache, compiled: seq<Key>, failed: seq<Key>)

  function Serve(icu: Icu, r: Request, cache: Cache): Step
  {
    FormatStep(icu, r.enforce, cache, r.msg, r.args, r.locale)
  }

  /** The pair a request is about, when it names a message. */
  predicate IsFor(r: Request, k: Key)
  {
    r.msg == Some(k.0) && r.locale == k.1
  }

  function Run(icu: Icu, cache: Cache, reqs: seq<Request>): (t: Trace)
    ensures |t.outcomes| == |reqs|
    decreases |reqs|
  {
    if reqs == [] then Trace([], cache, [], [])
    else
      var s := Serve(icu, reqs[0], cache);
      var rest := Run(icu, s.cache, reqs[1..]);
      var thrown := if s.outcome.Thrown? then [(reqs[0].msg.value, reqs[0].locale)] else [];
      Trace([s.outcome] + rest.outcomes, rest.cache, s.compiled + rest.compiled, thrown + rest.failed)
  }

  function Count(keys: seq<Key>, k: Key): nat
  {
    if keys == [] then 0 else (if keys[0] == k then 1 else 0) + Count(keys[1..], k)
  }

  predicate Cached(cache: Cache, k: Key)
  {
    Lookup(cache, k.0, k.1).Some?
  }

  lemma {:induction false} CountAppend(a: seq<Key>, b: seq<Key>, k: Key)
    ensures Count(a + b, k) == Count(a, k) + Count(b, k)
  {
    if a == [] {
      assert a + b == b;
    } else {
      assert (a + b)[1..] == a[1..] + b;
      CountAppend(a[1..], b, k);
    }
  }

  /** No entry, once stored, is ever replaced or removed. */
  lemma {:induction false} RunKeepsEntries(icu: Icu, cache: Cache, reqs: seq<Request>, k: Key)
    requires Cached(cache, k)
    ensures Lookup(Run(icu, cache, reqs).cache, k.0, k.1) == Lookup(cache, k.0, k.1)
    ensures Count(Run(icu, cache, reqs).compiled, k) == 0
    ensures Count(Run(icu, cache, reqs).failed, k) == 0
    decreases |reqs|
  {
    if reqs != [] {
      var s := Serve(icu, reqs[0], cache);
      var rest := Run(icu, s.cache, reqs[1..]);
      assert Lookup(s.cache, k.0, k.1) == Lookup(cache, k.0, k.1);
      RunKeepsEntries(icu, s.cache, reqs[1..], k);
      var thrown := if s.outcome.Thrown? then [(reqs[0].msg.value, reqs[0].locale)] else [];
      CountAppend(s.compiled, rest.compiled, k);
      CountAppend(thrown, rest.failed, k);
    }
  }

  /**
    Exact accounting of compilations: a pair is compiled once for every
    call that threw on it, plus once if it became cached during the run.
   */
  lemma {:induction false} CompilationsAccounted(icu: Icu, cache: Cache, reqs: seq<Request>, k: Key)
    ensures var t := Run(icu, cache, reqs);
            Count(t.compiled, k) == Count(t.failed, k) + (if !Cached(cache, k) && Cached(t.cache, k) then 1 else 0)
    decreases |reqs|
  {
    if reqs == [] {
      return;
    }
    if Cached(cache, k) {
      RunKeepsEntries(icu, cache, reqs, k);
      return;
    }
    var t := Run(icu, cache, reqs);
    var s := Serve(icu, reqs[0], cache);
    var rest := Run(icu, s.cache, reqs[1..]);
    var thrown := if s.outcome.Thrown? then [(reqs[0].msg.value, reqs[0].locale)] else [];
    CompilationsAccounted(icu, s.cache, reqs[1..], k);
    CountAppend(s.compiled, rest.compiled, k);
    CountAppend(thrown, rest.failed, k);
    if Cached(s.cache, k) {
      RunKeepsEntries(icu, s.cache, reqs[1..], k);
    }
  }

  /**
    Compilation happens at most once per pair over the cache's lifetime,
    unless enforcement made a compilation of that pair throw; a pair
    cached beforehand is never compiled.
   */
  lemma CompiledAtMostOnce(icu: Icu, cache: Cache, reqs: seq<Request>, k: Key)
    requires Count(Run(icu, cache, reqs).failed, k) == 0
    ensures Count(Run(icu, cache, reqs).compiled, k) <= 1
    ensures Cached(cache, k) ==> Count(Run(icu, cache, reqs).compiled, k) == 0
  {
    CompilationsAccounted(icu, cache, reqs, k);
  }

  /**
    The sentinel is sticky: once a pair is cached as Invalid, every later
    request for it returns the message unchanged, whatever the arguments or
    the enforcement flag, and nothing recompiles it.
   */
  lemma {:induction false} SentinelIsSticky(icu: Icu, cache: Cache, reqs: seq<Request>, k: Key)
    requires Lookup(cache, k.0, k.1) == Some(Invalid)
    ensures Lookup(Run(icu, cache, reqs).cache, k.0, k.1) == Some(Invalid)
    ensures Count(Run(icu, cache, reqs).compiled, k) == 0
    ensures forall i :: 0 <= i < |reqs| && IsFor(reqs[i], k) ==> Run(icu, cache, reqs).outcomes[i] == Returned(Some(k.0))
    decreases |reqs|
  {
    RunKeepsEntries(icu, cache, reqs, k);
    if reqs != [] {
      var t := Run(icu, cache, reqs);
      var s := Serve(icu, reqs[0], cache);
      SentinelIsSticky(icu, s.cache, reqs[1..], k);
      forall i | 0 <= i < |reqs| && IsFor(reqs[i], k)
        ensures t.outcomes[i] == Returned(Some(k.0))
      {
        if i > 0 {
          assert t.outcomes[i] == Run(icu, s.cache, reqs[1..]).outcomes[i - 1];
          assert reqs[i] == reqs[1..][i - 1];
        }
      }
    }
  }

  /** No pair is cached as the sentinel. */
  ghost predicate NoSentinel(cache: Cache)
  {
    forall m, l {:trigger Lookup(cache, m, l)} :: Lookup(cache, m, l) != Some(Invalid)
  }

  /** All requests run with enforcement on. */
  predicate AllEnforce(reqs: seq<Request>)
  {
    forall i :: 0 <= i < |reqs| ==> reqs[i].enforce
  }

  /**
    Caching is transparent over a run from a coherent cache: every answer
    to a request without enforcement is what an uncached formatter gives,
    and so is every answer when all requests enforce and no sentinel is
    cached at the start.
   */
  lemma {:induction false} RunMatchesDirect(icu: Icu, cache: Cache, reqs: seq<Request>)
    requires Coherent(icu, cache)
    ensures Coherent(icu, Run(icu, cache, reqs).cache)
    ensures forall i :: 0 <= i < |reqs| && !reqs[i].enforce ==>
              Run(icu, cache, reqs).outcomes[i] == DirectFormat(icu, false, reqs[i].msg, reqs[i].args, reqs[i].locale)
    ensures NoSentinel(cache) && AllEnforce(reqs) ==>
              NoSentinel(Run(icu, cache, reqs).cache)
              && forall i :: 0 <= i < |reqs| ==>
                   Run(icu, cache, reqs).outcomes[i] == DirectFormat(icu, true, reqs[i].msg, reqs[i].args, reqs[i].locale)
    decreases |reqs|
  {
    if reqs != [] {
      var t := Run(icu, cache, reqs);
      var r := reqs[0];
      var s := Serve(icu, r, cache);
      FormatStepMatchesDirect(icu, r.enforce, cache, r.msg, r.args, r.locale);
      if NoSentinel(cache) && AllEnforce(reqs) {
        assert r.enforce;
        forall m, l ensures Lookup(s.cache, m, l) != Some(Invalid) {
          assert Lookup(cache, m, l) != Some(Invalid);
        }
        assert AllEnforce(reqs[1..]) by {
          forall j | 0 <= j < |reqs[1..]| ensures reqs[1..][j].enforce {
            assert reqs[1..][j] == reqs[j + 1];
          }
        }
      }
      RunMatchesDirect(icu, s.cache, reqs[1..]);
      forall i | 0 <= i < |reqs|
        ensures !reqs[i].enforce ==> t.outcomes[i] == DirectFormat(icu, false, reqs[i].msg, reqs[i].args, reqs[i].locale)
        ensures NoSentinel(cache) && AllEnforce(reqs) ==>
                  t.outcomes[i] == DirectFormat(icu, true, reqs[i].msg, reqs[i].args, reqs[i].locale)
      {
        if i > 0 {
          assert t.outcomes[i] == Run(icu, s.cache, reqs[1..]).outcomes[i - 1];
          assert reqs[i] == reqs[1..][i - 1];
        }
      }
    }
  }
}
