/** The bounded retry of Register.__init__ as a specification: the calls it makes
    (recorded as a trace of events), the break test on the module-global retry
    counter, and the state the loop ends in, given the CA's answers. */
module Retry {
  import opened CertFiles
  import opened SignResponse

  /** One observable call: Register.register with its arguments and its return value,
      Cert.store with its arguments, or time.sleep. */
  datatype Event =
    | Registered(csr: string, key: string, result: Option<string>)
    | CertStored(cert: string, key: string)
    | Slept

  datatype Kind = RegisterCall | StoreCall | SleepCall

  function KindOf(e: Event): Kind {
    match e
    case Registered(_, _, _) => RegisterCall
    case CertStored(_, _) => StoreCall
    case Slept => SleepCall
  }

  /** How many events of a kind a trace holds. */
  function Occurrences(t: seq<Event>, kind: Kind): nat {
    if t == [] then 0
    else (if KindOf(t[0]) == kind then 1 else 0) + Occurrences(t[1..], kind)
  }

  /** The calls of a loop whose iteration k + 1 ends it: k times a failed registration
      followed by a sleep, then the last registration, which either fails (outcome None)
      or returns cert (outcome Some(cert)) and is followed by the store of cert and key. */
  function Attempts(csr: string, key: string, k: nat, outcome: Option<string>): seq<Event> {
    if k == 0 then
      match outcome
      case Some(cert) => [Registered(csr, key, Some(cert)), CertStored(cert, key)]
      case None => [Registered(csr, key, None)]
    else [Registered(csr, key, None), Slept] + Attempts(csr, key, k - 1, outcome)
  }

  /** The calls of k iterations that failed without ending the loop. */
  function Failures(csr: string, key: string, k: nat): seq<Event> {
    if k == 0 then [] else [Registered(csr, key, None), Slept] + Failures(csr, key, k - 1)
  }

  /** The loop's calls are its failed iterations followed by its last attempt. */
  lemma {:induction false} AttemptsSplit(csr: string, key: string, k: nat, outcome: Option<string>)
    ensures Attempts(csr, key, k, outcome) == Failures(csr, key, k) + Attempts(csr, key, 0, outcome)
  {
    if k > 0 {
      AttemptsSplit(csr, key, k - 1, outcome);
    }
  }

  /** One more failed iteration appends a failed registration and a sleep. */
  lemma {:induction false} FailuresExtend(csr: string, key: string, k: nat)
    ensures Failures(csr, key, k + 1) == Failures(csr, key, k) + [Registered(csr, key, None), Slept]
  {
    if k > 0 {
      FailuresExtend(csr, key, k - 1);
    }
  }

  /** Every registration in the trace sends the same CSR and key. */
  ghost predicate SameRequest(t: seq<Event>, csr: string, key: string) {
    forall i :: 0 <= i < |t| && t[i].Registered? ==> t[i].csr == csr && t[i].key == key
  }

  /** Each sleep comes right after a failed registration and right before another registration. */
  ghost predicate SleepsBetweenAttempts(t: seq<Event>) {
    forall i :: 0 <= i < |t| && t[i].Slept? ==>
      && 0 < i < |t| - 1
      && t[i - 1].Registered? && t[i - 1].result.None?
      && t[i + 1].Registered?
  }

  /** A store is the last call, and it stores the certificate the registration
      just before it returned, together with the key that registration was sent. */
  ghost predicate StoreEndsAfterSuccess(t: seq<Event>) {
    forall i :: 0 <= i < |t| && t[i].CertStored? ==>
      && i == |t| - 1 && 0 < i
      && t[i - 1].Registered?
      && t[i - 1].result == Some(t[i].cert)
      && t[i - 1].key == t[i].key
  }

  /** One registration per iteration, a sleep between consecutive iterations, and a
      single store exactly when the last attempt succeeded. */
  lemma {:induction false} AttemptsCount(csr: string, key: string, k: nat, outcome: Option<string>)
    ensures var t := Attempts(csr, key, k, outcome);
            && |t| == 2 * k + (if outcome.Some? then 2 else 1)
            && Occurrences(t, RegisterCall) == k + 1
            && Occurrences(t, SleepCall) == k
            && Occurrences(t, StoreCall) == (if outcome.Some? then 1 else 0)
  {
    var t := Attempts(csr, key, k, outcome);
    if k == 0 {
      if outcome.Some? {
        var tail := [CertStored(outcome.value, key)];
        assert t[1..] == tail && tail[1..] == [];
        assert Occurrences(tail, RegisterCall) == 0;
        assert Occurrences(tail, SleepCall) == 0;
        assert Occurrences(tail, StoreCall) == 1;
      } else {
        assert t[1..] == [];
      }
    } else {
      AttemptsCount(csr, key, k - 1, outcome);
      assert t[1..][1..] == Attempts(csr, key, k - 1, outcome);
    }
  }

  /** The order of the calls: every attempt sends the same CSR and key, sleeps fall only
      between a failed attempt and the next one, and the store comes last, right after
      the successful attempt whose certificate it writes. */
  lemma {:induction false} AttemptsShape(csr: string, key: string, k: nat, outcome: Option<string>)
    ensures var t := Attempts(csr, key, k, outcome);
            && |t| >= 1
            && t[0] == Registered(csr, key, if k == 0 then outcome else None)
            && SameRequest(t, csr, key)
            && SleepsBetweenAttempts(t)
            && StoreEndsAfterSuccess(t)
            && t[|t| - 1] == (match outcome
                              case Some(cert) => CertStored(cert, key)
                              case None => Registered(csr, key, None))
  {
    var t := Attempts(csr, key, k, outcome);
    if k > 0 {
      var rest := Attempts(csr, key, k - 1, outcome);
      AttemptsShape(csr, key, k - 1, outcome);
      assert t == [Registered(csr, key, None), Slept] + rest;
      assert forall i :: 2 <= i < |t| ==> t[i] == rest[i - 2];
      forall i | 0 <= i < |t| && t[i].Slept?
        ensures 0 < i < |t| - 1 && t[i - 1].Registered? && t[i - 1].result.None? && t[i + 1].Registered?
      {
        if i >= 2 {
          assert rest[i - 2].Slept?;
        }
      }
      forall i | 0 <= i < |t| && t[i].CertStored?
        ensures i == |t| - 1 && 0 < i && t[i - 1].Registered?
        ensures t[i - 1].result == Some(t[i].cert) && t[i - 1].key == t[i].key
      {
        assert rest[i - 2].CertStored?;
      }
    }
  }

  /** Line 68: the loop gives up when the incremented counter equals retries.
      retries is read as a float, so the test compares an integer with a real. */
  predicate Breaks(count: int, retries: real) {
    count as real == retries
  }

  /** A retries value for which the equality test can fire from a zero counter. */
  predicate IsPositiveInteger(retries: real) {
    retries >= 1.0 && retries.Floor as real == retries
  }

  /** The iteration that runs while the counter reads c ends the loop: its attempt
      succeeds, or it fails and the incremented counter hits retries.
      ca(c) is the CA's answer to the attempt made while the counter reads c. */
  predicate Ends(ca: nat -> Response, retries: real, c: nat) {
    Validate(ca(c)).Some? || Breaks(c + 1, retries)
  }

  /** last is the first iteration from start on that ends the loop. */
  ghost predicate FirstEnd(ca: nat -> Response, retries: real, start: nat, last: nat) {
    && start <= last
    && Ends(ca, retries, last)
    && forall c :: start <= c < last ==> !Ends(ca, retries, c)
  }

  /** The loop has one way to end. */
  lemma FirstEndUnique(ca: nat -> Response, retries: real, start: nat, a: nat, b: nat)
    requires FirstEnd(ca, retries, start, a) && FirstEnd(ca, retries, start, b)
    ensures a == b
  {
  }

  /** The agent's state that the loop changes: the files, the global counter and the calls made. */
  datatype State = State(files: FileSystem, retryCount: nat, trace: seq<Event>)

  /** The state after the loop, started in s, ends with the iteration run at counter value last:
      on success the chain and then the leaf pair are on disk and the counter is untouched
      by that iteration; on the final failure no file changed and the counter moved past last. */
  function Run(s: State, csr: string, key: string, ca: nat -> Response, last: nat): State
    requires s.retryCount <= last
  {
    var calls := Attempts(csr, key, last - s.retryCount, Leaf(ca(last)));
    match Validate(ca(last))
    case Some(chain) =>
      State(Stored(ChainWritten(s.files, chain.rootCaCert, chain.intermediateCaCert), chain.signedCert, key),
            last, s.trace + calls)
    case None =>
      State(s.files, last + 1, s.trace + calls)
  }

  /** Run when the last attempt succeeds, with the calls split into the failed iterations and the last one. */
  lemma RunOnSuccess(s: State, csr: string, key: string, ca: nat -> Response, last: nat, chain: Chain)
    requires s.retryCount <= last
    requires Validate(ca(last)) == Some(chain)
    ensures Run(s, csr, key, ca, last) ==
            State(Stored(ChainWritten(s.files, chain.rootCaCert, chain.intermediateCaCert), chain.signedCert, key),
                  last,
                  s.trace + Failures(csr, key, last - s.retryCount)
                    + [Registered(csr, key, Some(chain.signedCert))] + [CertStored(chain.signedCert, key)])
  {
    var f := Failures(csr, key, last - s.retryCount);
    AttemptsSplit(csr, key, last - s.retryCount, Some(chain.signedCert));
    assert s.trace + f + [Registered(csr, key, Some(chain.signedCert))] + [CertStored(chain.signedCert, key)]
        == s.trace + (f + [Registered(csr, key, Some(chain.signedCert)), CertStored(chain.signedCert, key)]);
  }

  /** Run when the last attempt fails, with the calls split into the failed iterations and the last one. */
  lemma RunOnExhaustion(s: State, csr: string, key: string, ca: nat -> Response, last: nat)
    requires s.retryCount <= last
    requires Validate(ca(last)).None?
    ensures Run(s, csr, key, ca, last) ==
            State(s.files, last + 1, s.trace + Failures(csr, key, last - s.retryCount) + [Registered(csr, key, None)])
  {
    AttemptsSplit(csr, key, last - s.retryCount, None);
  }

  /** Calls made by the loop: one registration per iteration, one sleep between
      consecutive iterations, and one store exactly when the last attempt succeeded. */
  lemma RunCounts(s: State, csr: string, key: string, ca: nat -> Response, last: nat)
    requires s.retryCount <= last
    ensures var r := Run(s, csr, key, ca, last);
            && |s.trace| <= |r.trace| && r.trace[..|s.trace|] == s.trace
            && Occurrences(r.trace[|s.trace|..], RegisterCall) == last - s.retryCount + 1
            && Occurrences(r.trace[|s.trace|..], SleepCall) == last - s.retryCount
            && Occurrences(r.trace[|s.trace|..], StoreCall) == (if Validate(ca(last)).Some? then 1 else 0)
  {
    var r := Run(s, csr, key, ca, last);
    AttemptsCount(csr, key, last - s.retryCount, Leaf(ca(last)));
    assert r.trace[|s.trace|..] == Attempts(csr, key, last - s.retryCount, Leaf(ca(last)));
  }

  /** The order of the loop's calls: same CSR and key on every attempt, sleeps only between
      a failed attempt and the next one, the store last and only after the successful
      attempt whose certificate it writes. */
  lemma RunTraceShape(s: State, csr: string, key: string, ca: nat -> Response, last: nat)
    requires s.retryCount <= last
    ensures var t := Run(s, csr, key, ca, last).trace[|s.trace|..];
            && |t| >= 1
            && SameRequest(t, csr, key)
            && SleepsBetweenAttempts(t)
            && StoreEndsAfterSuccess(t)
            && t[|t| - 1] == (if Validate(ca(last)).Some?
                              then CertStored(Validate(ca(last)).value.signedCert, key)
                              else Registered(csr, key, None))
  {
    var r := Run(s, csr, key, ca, last);
    AttemptsShape(csr, key, last - s.retryCount, Leaf(ca(last)));
    assert r.trace[|s.trace|..] == Attempts(csr, key, last - s.retryCount, Leaf(ca(last)));
  }

  /** When every attempt fails, the loop has an ending iteration exactly when retries
      is a positive integer above the counter's starting value; a retries of 0, a
      negative one or a fractional one never satisfies the equality test. */
  lemma EndsWhenAllFail(ca: nat -> Response, retries: real, start: nat)
    requires forall c: nat :: Validate(ca(c)).None?
    ensures (exists c: nat :: start <= c && Ends(ca, retries, c)) <==>
            IsPositiveInteger(retries) && start as real < retries
  {
    if exists c: nat :: start <= c && Ends(ca, retries, c) {
      var c: nat :| start <= c && Ends(ca, retries, c);
      assert Validate(ca(c)).None?;
      assert (c + 1) as real == retries;
      assert retries.Floor == c + 1;
    }
    if IsPositiveInteger(retries) && start as real < retries {
      var n := retries.Floor;
      assert start < n;
      assert Ends(ca, retries, n - 1);
    }
  }

  /** Every attempt fails and retries is a positive integer n: from the counter's initial 0
      the loop makes exactly n attempts with n - 1 sleeps, never stores, changes no file
      and leaves the counter at n. */
  lemma AllFailuresExhaustBudget(s: State, csr: string, key: string, ca: nat -> Response, retries: real)
    requires s.retryCount == 0
    requires IsPositiveInteger(retries)
    requires forall c: nat :: Validate(ca(c)).None?
    ensures var n := retries.Floor;
            && n >= 1
            && FirstEnd(ca, retries, 0, n - 1)
            && var r := Run(s, csr, key, ca, n - 1);
            && r.files == s.files
            && r.retryCount == n
            && Occurrences(r.trace[|s.trace|..], RegisterCall) == n
            && Occurrences(r.trace[|s.trace|..], SleepCall) == n - 1
            && Occurrences(r.trace[|s.trace|..], StoreCall) == 0
  {
    var n := retries.Floor;
    forall c | 0 <= c < n - 1 ensures !Ends(ca, retries, c) {
      assert (c + 1) as real < n as real;
    }
    assert Ends(ca, retries, n - 1);
    RunCounts(s, csr, key, ca, n - 1);
  }

  /** Attempt number k + 1 is the first to succeed and no earlier failure made the counter
      equal retries (always so when retries is an integer above k, and for any fractional
      or non-positive retries): the loop
      stops there after k + 1 registrations and k sleeps, with one store of that
      attempt's certificate and the key, and the chain that attempt returned on disk. */
  lemma FirstSuccessStops(s: State, csr: string, key: string, ca: nat -> Response, retries: real, k: nat)
    requires s.retryCount == 0
    requires Validate(ca(k)).Some?
    requires forall c :: 0 <= c < k ==> Validate(ca(c)).None? && !Breaks(c + 1, retries)
    ensures FirstEnd(ca, retries, 0, k)
    ensures var chain := Validate(ca(k)).value;
            var r := Run(s, csr, key, ca, k);
            && r.files == Stored(ChainWritten(s.files, chain.rootCaCert, chain.intermediateCaCert), chain.signedCert, key)
            && r.files[CERT_FILE] == chain.signedCert && r.files[KEY_FILE] == key
            && r.files[CA_FILE] == chain.rootCaCert && r.files[INTERMEDIATE_CA_FILE] == chain.intermediateCaCert
            && Occurrences(r.trace[|s.trace|..], RegisterCall) == k + 1
            && Occurrences(r.trace[|s.trace|..], SleepCall) == k
            && Occurrences(r.trace[|s.trace|..], StoreCall) == 1
            && r.retryCount == k
  {
    var chain := Validate(ca(k)).value;
    StoreKeepsChain(s.files, chain.rootCaCert, chain.intermediateCaCert, chain.signedCert, key);
    RunCounts(s, csr, key, ca, k);
  }

  /** Attempt number k + 1 <= retries is the first to succeed: the loop stops there after
      k + 1 registrations and k sleeps, with one store of that attempt's certificate and
      the key, and the chain that attempt returned on disk. */
  lemma FirstSuccessWithinBudget(s: State, csr: string, key: string, ca: nat -> Response, retries: real, k: nat)
    requires s.retryCount == 0
    requires (k as real) < retries
    requires Validate(ca(k)).Some?
    requires forall c :: 0 <= c < k ==> Validate(ca(c)).None?
    ensures FirstEnd(ca, retries, 0, k)
    ensures var chain := Validate(ca(k)).value;
            var r := Run(s, csr, key, ca, k);
            && r.files == Stored(ChainWritten(s.files, chain.rootCaCert, chain.intermediateCaCert), chain.signedCert, key)
            && r.files[CERT_FILE] == chain.signedCert && r.files[KEY_FILE] == key
            && r.files[CA_FILE] == chain.rootCaCert && r.files[INTERMEDIATE_CA_FILE] == chain.intermediateCaCert
            && Occurrences(r.trace[|s.trace|..], RegisterCall) == k + 1
            && Occurrences(r.trace[|s.trace|..], SleepCall) == k
            && Occurrences(r.trace[|s.trace|..], StoreCall) == 1
            && r.retryCount == k
  {
    forall c | 0 <= c < k ensures Validate(ca(c)).None? && !Breaks(c + 1, retries) {
      assert (c + 1) as real <= k as real;
    }
    FirstSuccessStops(s, csr, key, ca, retries, k);
  }
}
