/** The cache of Gateway targets for AI steps. Times are seconds. */
module AiTargetCache {
  import opened Wrappers
  import opened CreditCache

  const MAX_FRESH_FOR: Time := 300.0

  /** `model` stands for the URL, the key's secret and the model names. */
  datatype Target = Target(keyId: string, cacheTtl: nat, model: string)

  datatype AiCached = AiCached(fetchedAt: Time, target: Target)

  type Targets = map<string, AiCached>

  datatype AiLookup = Found(target: Target) | NotALabAccount | NoGateway | Unavailable

  /** The Lab's answer, if it is asked. */
  datatype Fetched = Fresh(target: Target) | NotFound | Error

  function Ttl(t: Target): Time {
    if (t.cacheTtl as real) < MAX_FRESH_FOR then t.cacheTtl as real else MAX_FRESH_FOR
  }

  predicate IsFresh(targets: Targets, account: string, now: Time) {
    account in targets && Since(now, targets[account].fetchedAt) < Ttl(targets[account].target)
  }

  predicate IsStale(targets: Targets, account: string, now: Time) {
    account in targets && Since(now, targets[account].fetchedAt) < STALE_FOR
  }

  /** The cached entry for the account holds the rejected key. */
  predicate HoldsRejected(targets: Targets, account: string, rejected: Option<string>) {
    rejected.Some? && account in targets && targets[account].target.keyId == rejected.value
  }

  /** The call can be served without asking the Lab. */
  predicate ServesCached(targets: Targets, account: string, rejected: Option<string>, refresh: bool, now: Time) {
    rejected == None && !refresh && IsFresh(targets, account, now)
  }

  /** Before the request: a cached rejected key is dropped. */
  function BeforeFetch(targets: Targets, account: string, rejected: Option<string>): Targets {
    if HoldsRejected(targets, account, rejected) then targets - {account} else targets
  }

  /** After the answer, on the cache as it is by then: what is served and what stays cached. */
  function AfterFetch(targets: Targets, account: string, now: Time, answer: Fetched): (AiLookup, Targets) {
    match answer
    case Fresh(t) => (Found(t), targets[account := AiCached(now, t)])
    case NotFound => (NoGateway, targets - {account})
    case Error => (if IsStale(targets, account, now) then Found(targets[account].target)
        else AiLookup.Unavailable, targets)
  }

  class AiTargetCache {
    var targets: Targets

    constructor ()
      ensures targets == map[]
    {
      targets := map[];
    }

    method Forget(account: string)
      modifies this
      ensures targets == old(targets) - {account}
    {
      targets := targets - {account};
    }

    /** One call with no other in between. */
    method Get(account: string, rejected: Option<string>, refresh: bool, now: Time, answer: Fetched)
      returns (r: AiLookup, ghost asked: bool)
      modifies this
      ensures !IsLabAccount(account) ==> r == AiLookup.NotALabAccount && !asked && targets == old(targets)
      ensures IsLabAccount(account) ==> (asked <==> !ServesCached(old(targets), account, rejected, refresh, now))
      ensures IsLabAccount(account) && !asked ==> r == Found(old(targets)[account].target) && targets == old(targets)
      ensures asked ==> (r, targets) == AfterFetch(BeforeFetch(old(targets), account, rejected), account, now, answer)
      ensures (r, targets) == Serve(old(targets), Query(account, rejected, refresh, now, answer))
    {
      asked := false;
      if !IsLabAccount(account) {
        return AiLookup.NotALabAccount, asked;
      }
      match rejected {
        case None =>
          if !refresh && IsFresh(targets, account, now) {
            return Found(targets[account].target), asked;
          }
        case Some(key) =>
          if account in targets && targets[account].target.keyId == key {
            Forget(account);
          }
      }
      asked := true;
      match answer {
        case Fresh(t) =>
          targets := targets[account := AiCached(now, t)];
          r := Found(t);
        case NotFound =>
          Forget(account);
          r := NoGateway;
        case Error =>
          r := if IsStale(targets, account, now) then Found(targets[account].target) else AiLookup.Unavailable;
      }
    }
  }

  // ---------------------------------------------------------------- whole runs

  /** One call of a run. */
  datatype Query = Query(account: string, rejected: Option<string>, refresh: bool, now: Time, answer: Fetched)

  /** The cache after the first `n` calls. */
  function After(calls: seq<Query>, n: nat): Targets
    requires n <= |calls|
  {
    if n == 0 then map[] else Serve(After(calls, n - 1), calls[n - 1]).1
  }

  function Asked(targets: Targets, c: Query): bool {
    IsLabAccount(c.account) && !ServesCached(targets, c.account, c.rejected, c.refresh, c.now)
  }

  /** What `Get` does, on values. */
  function Serve(targets: Targets, c: Query): (AiLookup, Targets) {
    if !IsLabAccount(c.account) then (AiLookup.NotALabAccount, targets)
    else if !Asked(targets, c) then (Found(targets[c.account].target), targets)
    else AfterFetch(BeforeFetch(targets, c.account, c.rejected), c.account, c.now, c.answer)
  }

  /** When a call asks, what it serves and what it leaves. A cached target serves a call without refresh
      or rejection while it is younger than its own lifetime, at most 300 s; any other call asks, and
      a cached target with the rejected key is dropped first. An answer is served and cached, a 404
      drops what is cached, and without an answer a target younger than 300 s is served, if one is
      left. */
  lemma ServeExactly(targets: Targets, c: Query)
    requires IsLabAccount(c.account)
    ensures var r, known := Serve(targets, c), c.account in targets;
            var ttl: Time := if known then targets[c.account].target.cacheTtl as real else 0.0;
            var life: Time := if ttl <= 300.0 then ttl else 300.0;
            var past: Time := if known then c.now - targets[c.account].fetchedAt else 0.0;
            var age: Time := if past >= 0.0 then past else 0.0;
            var served := c.rejected == None && !c.refresh && known && age < life;
            var held := known && c.rejected == Some(targets[c.account].target.keyId);
            var left := if held then targets - {c.account} else targets;
            && (Asked(targets, c) <==> !served)
            && (served ==> r == (Found(targets[c.account].target), targets))
            && (!served && c.answer.Fresh? ==>
                  r == (Found(c.answer.target), left[c.account := AiCached(c.now, c.answer.target)]))
            && (!served && c.answer.NotFound? ==> r == (NoGateway, targets - {c.account}))
            && (!served && c.answer.Error? && known && !held && age < 300.0 ==>
                  r == (Found(targets[c.account].target), left))
            && (!served && c.answer.Error? && !(known && !held && age < 300.0) ==> r == (AiLookup.Unavailable, left))
  {
    assert targets - {c.account} - {c.account} == targets - {c.account};
  }

  lemma OthersAskNothing(targets: Targets, c: Query)
    requires !IsLabAccount(c.account)
    ensures Serve(targets, c) == (AiLookup.NotALabAccount, targets) && !Asked(targets, c)
  {
  }

  ghost predicate InTurn(calls: seq<Query>) {
    forall i, j :: 0 <= i <= j < |calls| ==> calls[i].now <= calls[j].now
  }

  /** Call `i` brought the target that is the Lab's last word on the account before call `n`: every
      later request about it failed. */
  ghost predicate LastWord(calls: seq<Query>, n: nat, account: string, t: Target, i: nat) {
    && i < n <= |calls|
    && calls[i].account == account && Asked(After(calls, i), calls[i]) && calls[i].answer == Fresh(t)
    && forall k :: i < k < n && calls[k].account == account && Asked(After(calls, k), calls[k])
         ==> calls[k].answer == Error
  }

  lemma {:induction false} CachedIsLastWord(calls: seq<Query>, n: nat, account: string) returns (i: nat)
    requires n <= |calls| && account in After(calls, n)
    ensures LastWord(calls, n, account, After(calls, n)[account].target, i)
    ensures After(calls, n)[account].fetchedAt == calls[i].now
    decreases n
  {
    var before, c := After(calls, n - 1), calls[n - 1];
    if c.account == account && Asked(before, c) && c.answer.Fresh? {
      i := n - 1;
    } else {
      i := CachedIsLastWord(calls, n - 1, account);
    }
  }

  /** In a run of calls one after the other, a target served is either this call's own answer, or
      the Lab's last word on the account, less than 300 s old, every request since, this call's
      too if it asked, having failed. So after a 404 nothing older is served; under `refresh` or a
      rejection a cached target is served only once this call's own request failed; and the
      rejected key is never served from the cache. */
  lemma ServedTarget(calls: seq<Query>, n: nat, t: Target)
    requires InTurn(calls) && n < |calls| && Serve(After(calls, n), calls[n]).0 == Found(t)
    ensures var c := calls[n];
            || (Asked(After(calls, n), c) && c.answer == Fresh(t))
            || ((exists i: nat :: LastWord(calls, n, c.account, t, i) && c.now - calls[i].now < STALE_FOR)
                && (Asked(After(calls, n), c) ==> c.answer == Error)
                && (c.refresh || c.rejected.Some? ==> Asked(After(calls, n), c))
                && c.rejected != Some(t.keyId))
  {
    var c := calls[n];
    if !(Asked(After(calls, n), c) && c.answer == Fresh(t)) {
      var i := CachedIsLastWord(calls, n, c.account);
      assert calls[i].now <= c.now;
      assert LastWord(calls, n, c.account, t, i);
    }
  }
}
