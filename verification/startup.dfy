/** `_ensure_model_available`: the start-up check that the model is present,
    pulling it when it is not, with a bounded retry on connection errors.
    The service's answers are abstracted to one `Attempt` per loop iteration,
    and the loop is a state machine folded over the sequence of attempts. */
module Startup {
  import opened Wrappers
  import opened Strings

  /** At most this many attempts are made. */
  const MaxRetries: nat := 30

  const SuccessStatus := "success"

  /** One line of the `/api/pull` response body. The body is read in full
      by the request itself, so a failing connection is a `ConnectionError`
      attempt, never a line. */
  datatype Line =
    | Blank                          // empty line, skipped
    | Event(status: Option<string>)  // a JSON object and its "status" field, if any
    | Garbled                        // a line whose decoding or inspection raises

  /** What one loop iteration meets. */
  datatype Attempt =
    | ConnectionError    // the tags or the pull request raises `RequestException`
    | OtherError         // the tags handling raises any other exception
    | Reached(tagsStatus: int, names: seq<string>, pullStatus: int, lines: seq<Line>)

  /** How the check ends normally. */
  datatype Exit = ModelListed | PullSucceeded | PullRefused | RetriesExhausted

  /** How the check ends by raising. */
  datatype Fault = ConnectionFault | UnexpectedFault

  /** What one attempt leads to, before the retry budget is considered. */
  datatype Verdict = Retry | Stop(exit: Exit) | Throw(fault: Fault)

  /** Result of the whole check, with the number of attempts made. */
  datatype Outcome = Returned(exit: Exit, attempts: nat) | Raised(fault: Fault, attempts: nat)

  /** Some listed name contains `model` as a substring. */
  predicate Listed(model: string, names: seq<string>) {
    exists i | 0 <= i < |names| :: Contains(names[i], model)
  }

  predicate IsSuccess(line: Line) {
    line == Event(Some(SuccessStatus))
  }

  /** A line the stream reader passes over. */
  predicate Quiet(line: Line) {
    line.Blank? || (line.Event? && line.status != Some(SuccessStatus))
  }

  predicate QuietBefore(lines: seq<Line>, i: int) {
    forall j | 0 <= j < i && j < |lines| :: Quiet(lines[j])
  }

  /** Reading the pull stream: the first line that is not quiet decides. A
      success status stops the check, a garbled line raises, and a stream of
      quiet lines only ends the attempt. */
  function ReadStream(lines: seq<Line>): (v: Verdict)
    ensures v.Retry? <==> QuietBefore(lines, |lines|)
    ensures v.Stop? <==> exists i | 0 <= i < |lines| :: IsSuccess(lines[i]) && QuietBefore(lines, i)
    ensures v.Stop? ==> v.exit == PullSucceeded
    ensures v.Throw? ==> v.fault == UnexpectedFault
    ensures v.Throw? <==> exists i | 0 <= i < |lines| :: lines[i] == Garbled && QuietBefore(lines, i)
    decreases |lines|
  {
    if |lines| == 0 then Retry
    else
      var v := match lines[0]
        case Blank => ReadStream(lines[1..])
        case Event(status) => if status == Some(SuccessStatus) then Stop(PullSucceeded) else ReadStream(lines[1..])
        case Garbled => Throw(UnexpectedFault);
      assert forall i | 1 <= i <= |lines| :: QuietBefore(lines, i) <==> Quiet(lines[0]) && QuietBefore(lines[1..], i - 1);
      v
  }

  /** One iteration of the loop. A listed model stops the check before any
      pull; otherwise the pull is issued, a refused pull stops the check
      without error, and an accepted one is decided by its stream. */
  function AttemptVerdict(model: string, a: Attempt): (v: Verdict)
    ensures v == Stop(ModelListed) <==> a.Reached? && a.tagsStatus == 200 && Listed(model, a.names)
    ensures v == Stop(PullRefused) <==>
      a.Reached? && !(a.tagsStatus == 200 && Listed(model, a.names)) && a.pullStatus != 200
    ensures v.Retry? <==>
      && a.Reached? && !(a.tagsStatus == 200 && Listed(model, a.names)) && a.pullStatus == 200
      && QuietBefore(a.lines, |a.lines|)
    ensures v != Stop(RetriesExhausted)
    ensures v == Throw(ConnectionFault) <==> a.ConnectionError?
    ensures a.OtherError? ==> v == Throw(UnexpectedFault)
  {
    match a
    case ConnectionError => Throw(ConnectionFault)
    case OtherError => Throw(UnexpectedFault)
    case Reached(tagsStatus, names, pullStatus, lines) =>
      if tagsStatus == 200 && Listed(model, names) then Stop(ModelListed)
      else if pullStatus != 200 then Stop(PullRefused)
      else ReadStream(lines)
  }

  /** Verdicts after which the loop goes on to the next attempt, budget
      permitting: a connection error (caught and retried) or a pull stream
      that ended without success (the loop body simply falls through). */
  predicate Passes(v: Verdict) {
    v == Retry || v == Throw(ConnectionFault)
  }

  /** The check's result when attempt number `n` (counting from 1) is the
      last one made and met verdict `v`. */
  function Decide(v: Verdict, n: nat): Outcome {
    match v
    case Stop(exit) => Returned(exit, n)
    case Throw(fault) => Raised(fault, n)
    case Retry => Returned(RetriesExhausted, n)
  }

  /** State of the check: still probing (with the number of attempts made so
      far), or finished. */
  datatype Phase = Probing(made: nat) | Finished(result: Outcome)

  /** One transition: an attempt is made. A passing verdict leads to the next
      attempt while the budget lasts; any other verdict, or a passing one on
      the last attempt, finishes the check. A finished check ignores further
      input. */
  function Next(model: string, phase: Phase, a: Attempt): Phase {
    match phase
    case Finished(_) => phase
    case Probing(k) =>
      var v := AttemptVerdict(model, a);
      if Passes(v) && k + 1 < MaxRetries then Probing(k + 1) else Finished(Decide(v, k + 1))
  }

  function Fold(model: string, phase: Phase, attempts: seq<Attempt>): Phase
    decreases |attempts|
  {
    if |attempts| == 0 then phase else Fold(model, Next(model, phase, attempts[0]), attempts[1..])
  }

  lemma {:induction false} FinishedStays(model: string, r: Outcome, attempts: seq<Attempt>)
    ensures Fold(model, Finished(r), attempts) == Finished(r)
    decreases |attempts|
  {
    if |attempts| > 0 { FinishedStays(model, r, attempts[1..]); }
  }

  /** The first `n` attempts all pass. */
  ghost predicate AllPass(model: string, attempts: seq<Attempt>, n: int) {
    forall i | 0 <= i < n && i < |attempts| :: Passes(AttemptVerdict(model, attempts[i]))
  }

  lemma AllPassCons(model: string, attempts: seq<Attempt>, n: nat)
    requires |attempts| > 0 && Passes(AttemptVerdict(model, attempts[0]))
    requires AllPass(model, attempts[1..], n)
    ensures AllPass(model, attempts, n + 1)
  {
    forall i | 1 <= i < n + 1 && i < |attempts|
      ensures Passes(AttemptVerdict(model, attempts[i]))
    {
      assert attempts[i] == attempts[1..][i - 1];
    }
  }

  /** The check's result is decided by the first attempt whose verdict does
      not pass, or by the last allowed attempt; every earlier attempt passed. */
  ghost predicate DecidedAt(model: string, attempts: seq<Attempt>, r: Outcome) {
    && 1 <= r.attempts <= MaxRetries && r.attempts <= |attempts|
    && AllPass(model, attempts, r.attempts - 1)
    && (r.attempts < MaxRetries ==> !Passes(AttemptVerdict(model, attempts[r.attempts - 1])))
    && r == Decide(AttemptVerdict(model, attempts[r.attempts - 1]), r.attempts)
  }

  /** From `k` attempts made, enough further input always finishes the
      check, within the budget, at the first non-passing attempt. */
  lemma {:induction false} FoldFinishes(model: string, k: nat, attempts: seq<Attempt>)
    requires k < MaxRetries && |attempts| >= MaxRetries - k
    ensures Fold(model, Probing(k), attempts).Finished?
    ensures var r := Fold(model, Probing(k), attempts).result;
      var m := r.attempts - k;
      && 1 <= m <= |attempts| && r.attempts <= MaxRetries
      && AllPass(model, attempts, m - 1)
      && (r.attempts < MaxRetries ==> !Passes(AttemptVerdict(model, attempts[m - 1])))
      && r == Decide(AttemptVerdict(model, attempts[m - 1]), r.attempts)
    decreases MaxRetries - k
  {
    var v := AttemptVerdict(model, attempts[0]);
    if Passes(v) && k + 1 < MaxRetries {
      FoldFinishes(model, k + 1, attempts[1..]);
      var r := Fold(model, Probing(k), attempts).result;
      var m := r.attempts - k;
      AllPassCons(model, attempts, m - 2);
      assert attempts[1..][m - 2] == attempts[m - 1];
    } else {
      FinishedStays(model, Decide(v, k + 1), attempts[1..]);
    }
  }

  /** `_ensure_model_available` against the service's answers to the
      attempts it may make: at most `MaxRetries` attempts, every one but the
      last passing, and the last one deciding the result. */
  function EnsureModelAvailable(model: string, attempts: seq<Attempt>): (r: Outcome)
    requires |attempts| >= MaxRetries
    ensures DecidedAt(model, attempts, r)
  {
    FoldFinishes(model, 0, attempts);
    Fold(model, Probing(0), attempts).result
  }

  /** At most one result fits the attempts. */
  lemma DecidedAtIsUnique(model: string, attempts: seq<Attempt>, r1: Outcome, r2: Outcome)
    requires DecidedAt(model, attempts, r1) && DecidedAt(model, attempts, r2)
    ensures r1 == r2
  {
    // Both results name their last attempt, and `DecidedAt` fixes the
    // result from that attempt's verdict.
  }

  /** The check ends with `r` exactly when `r` is decided by the attempts:
      its last attempt is the first that does not pass, or the thirtieth. */
  lemma EnsureModelAvailableIff(model: string, attempts: seq<Attempt>, r: Outcome)
    requires |attempts| >= MaxRetries
    ensures EnsureModelAvailable(model, attempts) == r <==> DecidedAt(model, attempts, r)
  {
    if DecidedAt(model, attempts, r) {
      DecidedAtIsUnique(model, attempts, r, EnsureModelAvailable(model, attempts));
    }
  }

  /** Only the attempts actually made matter: answers the service would
      have given to later attempts change nothing, so no more than
      `MaxRetries` attempts are ever made. */
  lemma OnlyAttemptsMadeMatter(model: string, attempts: seq<Attempt>, other: seq<Attempt>)
    requires |attempts| >= MaxRetries && |other| >= MaxRetries
    requires var n := EnsureModelAvailable(model, attempts).attempts;
      attempts[..n] == other[..n]
    ensures EnsureModelAvailable(model, other) == EnsureModelAvailable(model, attempts)
  {
    var r := EnsureModelAvailable(model, attempts);
    var n := r.attempts;
    assert forall i | 0 <= i < n :: attempts[i] == attempts[..n][i] == other[..n][i] == other[i];
    assert DecidedAt(model, other, r);
    EnsureModelAvailableIff(model, other, r);
  }

  /** When every attempt meets a connection error, the check raises the
      connection error after exactly `MaxRetries` attempts. */
  lemma PersistentConnectionFailure(model: string, attempts: seq<Attempt>)
    requires |attempts| >= MaxRetries
    requires forall i | 0 <= i < MaxRetries :: attempts[i] == ConnectionError
    ensures EnsureModelAvailable(model, attempts) == Raised(ConnectionFault, MaxRetries)
  {
    EnsureModelAvailableIff(model, attempts, Raised(ConnectionFault, MaxRetries));
  }

  /** Connection errors on attempts before the last are retried: after `k`
      of them, an attempt that finds the model listed ends the check
      normally on attempt `k + 1`. */
  lemma ConnectionErrorsAreRetried(model: string, attempts: seq<Attempt>, k: nat)
    requires |attempts| >= MaxRetries && k < MaxRetries
    requires forall i | 0 <= i < k :: attempts[i] == ConnectionError
    requires attempts[k].Reached? && attempts[k].tagsStatus == 200 && Listed(model, attempts[k].names)
    ensures EnsureModelAvailable(model, attempts) == Returned(ModelListed, k + 1)
  {
    EnsureModelAvailableIff(model, attempts, Returned(ModelListed, k + 1));
  }

  /** Any other exception raises at once, whatever budget is left. */
  lemma UnexpectedErrorIsImmediate(model: string, attempts: seq<Attempt>, k: nat)
    requires |attempts| >= MaxRetries && k < MaxRetries
    requires AllPass(model, attempts, k)
    requires attempts[k] == OtherError
    ensures EnsureModelAvailable(model, attempts) == Raised(UnexpectedFault, k + 1)
  {
    EnsureModelAvailableIff(model, attempts, Raised(UnexpectedFault, k + 1));
  }

  /** A refused pull request ends the check normally, without the model,
      whether the tags call failed or listed other models only. */
  lemma RefusedPullReturns(model: string, attempts: seq<Attempt>)
    requires |attempts| >= MaxRetries
    requires attempts[0].Reached? && attempts[0].pullStatus != 200
    requires !(attempts[0].tagsStatus == 200 && Listed(model, attempts[0].names))
    ensures EnsureModelAvailable(model, attempts) == Returned(PullRefused, 1)
  {
    EnsureModelAvailableIff(model, attempts, Returned(PullRefused, 1));
  }

  /** Thirty accepted pulls whose streams never report success end the
      check normally, as if the model were ready. */
  lemma SilentStreamsExhaustBudget(model: string, attempts: seq<Attempt>)
    requires |attempts| >= MaxRetries
    requires forall i | 0 <= i < MaxRetries ::
      && attempts[i].Reached? && !Listed(model, attempts[i].names) && attempts[i].pullStatus == 200
      && QuietBefore(attempts[i].lines, |attempts[i].lines|)
    ensures EnsureModelAvailable(model, attempts) == Returned(RetriesExhausted, MaxRetries)
  {
    EnsureModelAvailableIff(model, attempts, Returned(RetriesExhausted, MaxRetries));
  }

  /** The model counts as listed when its name occurs anywhere inside a
      listed name, not only when the names are equal. */
  lemma ListedBySubstring(model: string, names: seq<string>, k: nat, before: string, after: string)
    requires k < |names| && names[k] == before + model + after
    ensures Listed(model, names)
  {
    var s := names[k];
    assert s[|before|..|before| + |model|] == model;
    assert OccursAt(s, model, |before|);
    ContainsIffOccurs(s, model);
  }
}
