/** The bounded retry loop of the seed scripts around every call to the rule store. */
module Retry {
  import opened Sums

  const BASE_MS: nat := 400
  const CAP_MS: nat := 5000

  /** A response; racy says that its body names the row-level-security race. */
  datatype Response = Response(ok: bool, status: int, racy: bool)

  predicate Transient(r: Response) {
    r.status >= 500 && r.racy
  }

  predicate Retried(r: Response) {
    !r.ok && Transient(r)
  }

  function Delay(i: nat): nat {
    Min(CAP_MS, BASE_MS * i)
  }

  /** The server's answers, by attempt number from 1. */
  type Server = nat -> Response

  /** The waiting time after n retried attempts. */
  function Waited(n: nat): nat {
    if n == 0 then 0 else Waited(n - 1) + Delay(n)
  }

  /** Attempts 1 to n were all retried. */
  predicate AllRetried(server: Server, n: nat) {
    forall i | 1 <= i <= n :: Retried(server(i))
  }

  /** At most limit attempts; the answer is the first that is not retried, or the last one; with no attempts
      allowed there is no answer at all. */
  method WithTransientRetry(server: Server, limit: int) returns (last: Option<Response>, attempts: nat, waited: nat)
    ensures attempts <= Max(0, limit)
    ensures last == if attempts == 0 then None else Some(server(attempts))
    ensures attempts == 0 <==> limit <= 0
    // every attempt but the last met the race
    ensures forall i | 1 <= i < attempts :: !server(i).ok && server(i).status >= 500 && server(i).racy
    // the last one did not, or no attempt was left
    ensures attempts < limit ==> last.Some? && (last.value.ok || last.value.status < 500 || !last.value.racy)
    ensures last.Some? ==> waited == Waited(if Retried(last.value) then attempts else attempts - 1)
  {
    last, attempts, waited := None, 0, 0;
    var i := 1;
    while i <= limit
      invariant i == attempts + 1 && attempts <= Max(0, limit)
      invariant AllRetried(server, attempts) && waited == Waited(attempts)
      invariant last == if attempts == 0 then None else Some(server(attempts))
    {
      last := Some(server(i));
      attempts := i;
      if last.value.ok || !Transient(last.value) { return; }
      waited := waited + Delay(i);
      i := i + 1;
    }
  }

  lemma Triangle(n: nat)
    ensures 200 * (n - 1) * n + 400 * n == 200 * n * (n + 1)
  {
    assert (n - 1) * n == n * n - n && n * (n + 1) == n * n + n;
    assert 200 * (n - 1) * n == 200 * ((n - 1) * n) && 200 * n * (n + 1) == 200 * (n * (n + 1));
  }

  /** The closed form of the waiting time: 200 n (n + 1) ms up to twelve retries, 5000 ms more for each one after. */
  lemma {:induction false} WaitedClosedForm(n: nat)
    ensures Waited(n) == if n <= 12 then 200 * n * (n + 1) else 31_200 + 5000 * (n - 12)
  {
    if n > 0 {
      WaitedClosedForm(n - 1);
      Triangle(n);
    }
  }
}
