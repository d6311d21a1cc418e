/** The API client's own retry loop for GET requests, and its use of the Retry-After header. */
module ApiClient {

  import opened Outcomes
  import opened Text
  import opened Trimming
  import opened Retry

  /** What a request comes back with; the header value is absent when it is not readable text. */
  datatype Reply = Response(status: nat, retryAfter: Option<string>, body: string) | NoResponse(error: string)

  datatype ClientError = HttpStatus(status: nat) | Transport(error: string)

  predicate IsSuccess(status: nat) { 200 <= status < 300 }

  /** A reply as the result of the operation. */
  function AsResult(reply: Reply): (r: Result<Reply, ClientError>) {
    match reply
    case NoResponse(e) => Err(Transport(e))
    case Response(status, _, _) => if IsSuccess(status) then Ok(reply) else Err(HttpStatus(status))
  }

  /** The classification under which the generic loop would retry the same replies. */
  function ClassifyError(e: ClientError): (c: Classification) {
    match e
    case HttpStatus(status) => ClassifyStatus(status)
    case Transport(_) => Transient
  }

  // ----- Retry-After, delay-seconds form (section 10.2.3 of RFC 9110) -----

  /** `str::parse::<u64>` */
  function ParseU64(s: string): (n: Option<nat>)
    ensures n.Some? ==> n.value <= U64_MAX
  {
    var digits := if s != [] && s[0] == '+' then s[1..] else s;
    if digits == [] || !AllDigits(digits) then None
    else if 0 <= DecimalValue(digits) <= U64_MAX then Some(DecimalValue(digits))
    else None
  }

  function RetryAfterSeconds(reply: Reply): (n: Option<nat>) {
    if reply.Response? && reply.retryAfter.Some? then ParseU64(Trim(reply.retryAfter.value)) else None
  }

  function Zeros(k: nat): (s: string) { if k == 0 then "" else "0" + Zeros(k - 1) }

  /** The digits of a number, after any zeros. */
  ghost predicate DigitText(s: string, n: nat) {
    exists k: nat :: s == Zeros(k) + Decimal(n)
  }

  /** The texts that stand for a number: its digits, after any zeros and perhaps a plus sign. */
  ghost predicate NumberText(s: string, n: nat) {
    DigitText(s, n) || (s != [] && s[0] == '+' && DigitText(s[1..], n))
  }

  predicate AllDigits(s: string) { forall i | 0 <= i < |s| :: '0' <= s[i] <= '9' }

  lemma {:induction false} ZerosOneMore(k: nat)
    ensures Zeros(k) + "0" == Zeros(k + 1)
  {
    if k > 0 {
      ZerosOneMore(k - 1);
      assert "0" + (Zeros(k - 1) + "0") == ("0" + Zeros(k - 1)) + "0";
    }
  }

  /** Digits are zeros followed by the decimal text of their value. */
  lemma {:induction false} DigitsStandForValue(s: string) returns (n: nat, k: nat)
    requires s != [] && AllDigits(s)
    ensures DecimalValue(s) == n && s == Zeros(k) + Decimal(n)
  {
    var d, init := s[|s| - 1] as int - '0' as int, s[..|s| - 1];
    assert s == init + [Digit(d)];
    if init == [] {
      n, k := d, 0;
    } else {
      var m, j := DigitsStandForValue(init);
      n := m * 10 + d;
      assert n / 10 == m && n % 10 == d;
      if m == 0 {
        ZerosOneMore(j);
        k := j + 1;
      } else {
        k := j;
        assert (Zeros(j) + Decimal(m)) + [Digit(d)] == Zeros(j) + (Decimal(m) + [Digit(d)]);
      }
    }
  }

  lemma {:induction false} ValueAfterZeros(k: nat, s: string)
    ensures DecimalValue(Zeros(k) + s) == DecimalValue(s)
  {
    if k == 0 {
      assert Zeros(k) + s == s;
    } else {
      ValueAfterZeros(k - 1, s);
      ValueAfterZero(Zeros(k - 1) + s);
      OneZeroFirst(k, s);
    }
  }

  lemma OneZeroFirst(k: nat, s: string)
    requires k > 0
    ensures Zeros(k) + s == "0" + (Zeros(k - 1) + s)
  {
  }

  lemma {:induction false} ZerosAreDigits(k: nat)
    ensures AllDigits(Zeros(k))
  {
    if k > 0 {
      ZerosAreDigits(k - 1);
    }
  }

  lemma {:induction false} ValueAfterZero(s: string)
    ensures DecimalValue("0" + s) == DecimalValue(s)
  {
    var t := "0" + s;
    if s == [] {
      assert t[..|t| - 1] == [];
    } else {
      ValueAfterZero(s[..|s| - 1]);
      assert t[..|t| - 1] == "0" + s[..|s| - 1];
    }
  }

  lemma {:induction false} DigitsIff(s: string, n: nat)
    ensures s != [] && AllDigits(s) && DecimalValue(s) == n <==> DigitText(s, n)
  {
    if s != [] && AllDigits(s) && DecimalValue(s) == n {
      var m, k := DigitsStandForValue(s);
    }
    if k: nat :| s == Zeros(k) + Decimal(n) {
      DecimalRoundTrip(n);
      forall i | 0 <= i < |Decimal(n)| ensures '0' <= Decimal(n)[i] <= '9' {
        assert Decimal(n)[i] in Decimal(n);
      }
      ValueAfterZeros(k, Decimal(n));
      ZerosAreDigits(k);
    }
  }

  /** A header is read as a number exactly if it is a text for that number and the number has 64 bits. */
  lemma {:induction false} ReadIff(s: string, n: nat)
    ensures ParseU64(s) == Some(n) <==> n <= U64_MAX && NumberText(s, n)
  {
    var digits := if s != [] && s[0] == '+' then s[1..] else s;
    DigitsIff(digits, n);
    DigitsIff(s, n);
  }

  /** The header's delay when there is one, without a limit, and the computed one otherwise. */
  function RetryDelayForReply(backoff: Backoff, attempt: nat, reply: Reply, sample: real): (ms: nat) {
    match RetryAfterSeconds(reply)
    case Some(seconds) => seconds * 1000
    case None => backoff(attempt, sample)
  }

  /**
   A number of seconds of at most 64 bits is waited for as asked, whatever blanks, zeros or sign come
   with it; after any other reply the backoff applies.
   */
  lemma {:induction false} RetryAfterIsHonoured(backoff: Backoff, attempt: nat, sample: real, reply: Reply)
    ensures forall n: nat | n <= U64_MAX && reply.Response? && reply.retryAfter.Some? ::
              NumberText(Trim(reply.retryAfter.value), n) ==>
                RetryDelayForReply(backoff, attempt, reply, sample) == n * 1000
    ensures reply.NoResponse? || reply.retryAfter.None?
            || (forall n: nat | n <= U64_MAX :: !NumberText(Trim(reply.retryAfter.value), n)) ==>
              RetryDelayForReply(backoff, attempt, reply, sample) == backoff(attempt, sample)
  {
    if reply.Response? && reply.retryAfter.Some? {
      var text := Trim(reply.retryAfter.value);
      forall n: nat ensures ParseU64(text) == Some(n) <==> n <= U64_MAX && NumberText(text, n) {
        ReadIff(text, n);
      }
    }
  }

  /** The delay before a retry, from its number, the reply before it and a random sample. */
  type Delay = (nat, Reply, real) -> nat

  function ReplyDelay(backoff: Backoff): (d: Delay) {
    (attempt, reply, sample) => RetryDelayForReply(backoff, attempt, reply, sample)
  }

  /** The delay after each of the first `n` replies. */
  function ReplyDelays(delay: Delay, send: nat -> Reply, samples: nat -> real, n: nat): (ms: seq<nat>)
    ensures |ms| == n
  {
    if n == 0 then [] else ReplyDelays(delay, send, samples, n - 1) + [delay(n, send(n - 1), samples(n - 1))]
  }

  /** The results of the calls, as the generic loop would see them. */
  function Results(send: nat -> Reply): (execute: nat -> Result<Reply, ClientError>) {
    (i: nat) => AsResult(send(i))
  }

  /** The loop of `send_idempotent_get`: the counter is compared before it is incremented. */
  method GetLoop(maxRetries: nat, backoff: Backoff, delay: Delay, send: nat -> Reply, samples: nat -> real)
    returns (r: Retried<Reply, ClientError>, delays: seq<nat>)
    requires maxRetries <= U32_MAX
    requires forall attempt, error, sample :: delay(attempt, NoResponse(error), sample) == backoff(attempt, sample)
    ensures RetriedRight(Results(send), ClassifyError, maxRetries, r)
    ensures delays == ReplyDelays(delay, send, samples, |r.backoffs|)
  {
    ghost var execute := Results(send);
    var retry, calls := 0, 0;
    var backoffs: seq<nat> := [];
    delays := [];
    while true
      invariant retry == calls <= maxRetries && TransientUpTo(execute, ClassifyError, calls)
      invariant backoffs == Attempts(calls) && delays == ReplyDelays(delay, send, samples, calls)
      decreases maxRetries - calls
    {
      var reply := send(calls);
      var sample := samples(calls);
      assert execute(calls) == AsResult(reply);
      calls := calls + 1;
      match reply {
        case Response(status, _, _) =>
          if IsSuccess(status) {
            StopsRight(execute, ClassifyError, maxRetries, retry);
            return Retried(Ok(reply), calls, backoffs), delays;
          }
          if ClassifyStatus(status) == Permanent || retry >= maxRetries {
            StopsRight(execute, ClassifyError, maxRetries, retry);
            return Retried(Err(HttpStatus(status)), calls, backoffs), delays;
          }
          GoesOn(execute, ClassifyError, retry);
          retry := retry + 1;
          delays := delays + [delay(retry, reply, sample)];
        case NoResponse(error) =>
          if retry >= maxRetries {
            StopsRight(execute, ClassifyError, maxRetries, retry);
            return Retried(Err(Transport(error)), calls, backoffs), delays;
          }
          GoesOn(execute, ClassifyError, retry);
          retry := retry + 1;
          delays := delays + [backoff(retry, sample)];
      }
      backoffs := backoffs + [retry];
    }
  }

  method SendIdempotentGet(maxRetries: nat, backoff: Backoff, send: nat -> Reply, samples: nat -> real)
    returns (r: Retried<Reply, ClientError>, delays: seq<nat>)
    requires maxRetries <= U32_MAX
    ensures RetriedRight(Results(send), ClassifyError, maxRetries, r)
    ensures delays == ReplyDelays(ReplyDelay(backoff), send, samples, |r.backoffs|)
  {
    r, delays := GetLoop(maxRetries, backoff, ReplyDelay(backoff), send, samples);
  }

  /**
   The two loops make the same calls, number their backoffs alike and return the same result on
   every sequence of replies, except in the one case where the generic loop does not stop.
   */
  lemma {:induction false} LoopsAgree(maxRetries: nat, send: nat -> Reply, r: Retried<Reply, ClientError>,
      g: Option<Retried<Reply, ClientError>>)
    requires maxRetries <= U32_MAX
    requires RetriedRight(Results(send), ClassifyError, maxRetries, r)
    requires g.Some? ==> RetriedRight(Results(send), ClassifyError, maxRetries, g.value)
    requires g.None? <==> maxRetries == U32_MAX && AlwaysTransient(Results(send), ClassifyError)
    ensures g == Some(r) <==> maxRetries < U32_MAX || !AlwaysTransient(Results(send), ClassifyError)
    ensures 1 <= r.calls <= maxRetries + 1
  {
    if g.Some? {
      RetriedIsUnique(Results(send), ClassifyError, maxRetries, r, g.value);
    }
  }

  // ----- how long a run sleeps -----

  /** For each of the first `n` replies what its server asked for, and otherwise the longest delay. */
  function Allowance(send: nat -> Reply, limit: real, n: nat): (ms: real) {
    if n == 0 then 0.0
    else
      Allowance(send, limit, n - 1) +
      match RetryAfterSeconds(send(n - 1)) { case Some(seconds) => (seconds * 1000) as real case None => limit }
  }

  lemma {:induction false} SleepWithin(backoff: Backoff, limit: real, send: nat -> Reply, samples: nat -> real, n: nat)
    requires forall attempt, sample :: backoff(attempt, sample) as real <= limit
    ensures Sum(ReplyDelays(ReplyDelay(backoff), send, samples, n)) as real <= Allowance(send, limit, n)
  {
    if n > 0 {
      var last := RetryDelayForReply(backoff, n, send(n - 1), samples(n - 1));
      SleepWithin(backoff, limit, send, samples, n - 1);
      var delays := ReplyDelays(ReplyDelay(backoff), send, samples, n);
      assert delays[..n - 1] == ReplyDelays(ReplyDelay(backoff), send, samples, n - 1);
      assert Sum(delays) == Sum(delays[..n - 1]) + last;
    }
  }

  /** A run sleeps at most the longest delay for each retry, with the delays that servers asked for in their place. */
  lemma {:induction false} ClientSleepIsBounded(p: RetryPolicy, send: nat -> Reply, samples: nat -> real, n: nat)
    requires JitterOk(p)
    ensures Sum(ReplyDelays(ReplyDelay(PolicyBackoff(p)), send, samples, n)) as real
         <= Allowance(send, Times(p.maxMs as real, 1.0 + p.jitter), n)
  {
    var limit := Times(p.maxMs as real, 1.0 + p.jitter);
    forall attempt, sample ensures PolicyBackoff(p)(attempt, sample) as real <= limit {
      DelayIsLimited(p, attempt, sample);
    }
    SleepWithin(PolicyBackoff(p), limit, send, samples, n);
  }

  // ----- both loops on the same replies -----

  /**
   A GET sent by the client's loop and by the generic loop under one policy: they make the same calls and
   return the same result unless the limit is the largest 32-bit number and every call fails transiently,
   and the client sleeps no longer than its replies and the policy allow.
   */
  method GetBothWays(p: RetryPolicy, send: nat -> Reply, samples: nat -> real)
    returns (r: Retried<Reply, ClientError>, g: Option<Retried<Reply, ClientError>>, delays: seq<nat>)
    requires p.maxRetries <= U32_MAX
    ensures g == Some(r) <==> p.maxRetries < U32_MAX || !AlwaysTransient(Results(send), ClassifyError)
    ensures RetriedRight(Results(send), ClassifyError, p.maxRetries, r) && 1 <= r.calls <= p.maxRetries + 1
    ensures |delays| == r.calls - 1
    ensures JitterOk(p) ==>
              Sum(delays) as real <= Allowance(send, Times(p.maxMs as real, 1.0 + p.jitter), r.calls - 1)
  {
    r, delays := SendIdempotentGet(p.maxRetries, PolicyBackoff(p), send, samples);
    var unused: seq<nat>;
    g, unused := WithRetryClassified(p, ClassifyError, Results(send), samples);
    LoopsAgree(p.maxRetries, send, r, g);
    if JitterOk(p) {
      ClientSleepIsBounded(p, send, samples, r.calls - 1);
    }
  }

  /** The statuses that are worth another try. */
  predicate WorthRetrying(status: nat) { status == 429 || (500 <= status <= 504 && status != 501) }

  /** What a reply means for a GET: statuses 200 to 299 end it well, others end it unless worth another try. */
  lemma {:induction false} ReplyMeans(send: nat -> Reply, k: nat)
    ensures var reply, r := send(k), Results(send)(k);
            && (r.Ok? <==> reply.Response? && reply.status / 100 == 2)
            && (r.Ok? ==> r.value == reply)
            && (IsTransient(r, ClassifyError) <==> reply.NoResponse? || WorthRetrying(reply.status))
            && (r.Err? && reply.Response? ==> r.error == HttpStatus(reply.status))
            && (reply.NoResponse? ==> r == Err(Transport(reply.error)))
  {
    assert Results(send)(k) == AsResult(send(k));
  }

  /** Each reply before the last was worth another try, and the last was not or came after all retries. */
  lemma {:induction false} LastReplyDecides(maxRetries: nat, send: nat -> Reply, r: Retried<Reply, ClientError>, i: nat)
    requires RetriedRight(Results(send), ClassifyError, maxRetries, r) && i < r.calls
    ensures var reply := send(i);
            var again := reply.NoResponse? || WorthRetrying(reply.status);
            && (i < r.calls - 1 ==> again)
            && (i == r.calls - 1 ==> !again || r.calls == maxRetries + 1)
            && (i == r.calls - 1 ==> (r.result == Ok(reply) <==> reply.Response? && 200 <= reply.status <= 299))
  {
    ReplyMeans(send, i);
    assert i < r.calls - 1 ==> IsTransient(Results(send)(i), ClassifyError);
  }

  /** A server that always answers 500: at the largest limit the loops disagree. */
  lemma {:induction false} AlwaysFailing() returns (send: nat -> Reply)
    ensures AlwaysTransient(Results(send), ClassifyError)
  {
    send := (i: nat) => Response(500, None, "");
    forall i: nat | i < U32_MAX + 1 ensures IsTransient(Results(send)(i), ClassifyError) {
      assert send(i) == Response(500, None, "") && Results(send)(i) == AsResult(send(i));
    }
  }
}
