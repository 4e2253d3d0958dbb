/** The credit pre-check: lookups of an account's credits, cached per account. Times are seconds. */
module CreditCache {
  import opened Wrappers

  type Time = real

  const FRESH_FOR: Time := 30.0
  const STALE_FOR: Time := 300.0
  const FAILURE_BACKOFF: Time := 10.0

  datatype Lookup = Lookup(active: bool, balance: Option<int>)
  {
    predicate CanSpend() {
      active && balance.Some? && balance.value > 0
    }
  }

  datatype Decision = Allowed | NotALabAccount | NoCredits | Unavailable

  datatype Cached = Cached(fetchedAt: Time, lookup: Lookup)

  type Accounts = map<string, Cached>

  /** A canonical UUID in lower case. */
  predicate IsLabAccount(id: string) {
    |id| == 36 && forall i :: 0 <= i < 36 ==>
      if i in {8, 13, 18, 23} then id[i] == '-' else '0' <= id[i] <= '9' || 'a' <= id[i] <= 'f'
  }

  /** Elapsed time, 0 when `at` is in the future. */
  function Since(now: Time, at: Time): Time {
    if now >= at then now - at else 0.0
  }

  predicate Usable(accounts: Accounts, account: string, now: Time, window: Time) {
    account in accounts && Since(now, accounts[account].fetchedAt) < window
  }

  predicate BackingOff(lastFailure: Option<Time>, now: Time) {
    lastFailure.Some? && Since(now, lastFailure.value) < FAILURE_BACKOFF
  }

  function DecisionOf(found: Option<Lookup>): Decision {
    match found
    case Some(l) => if l.CanSpend() then Allowed else NoCredits
    case None => Unavailable
  }

  /** What a lookup gives and leaves: the result, the cached accounts, the last failure. */
  datatype Outcome = Outcome(found: Option<Lookup>, accounts: Accounts, lastFailure: Option<Time>)

  /** One lookup with no other in between. `answer` is what the Lab says if it is asked, None for any
      failure, seen at `seenAt`. */
  function LookedUp(accounts: Accounts, lastFailure: Option<Time>, account: string, now: Time, answer: Option<Lookup>,
      seenAt: Time): Outcome {
    if Usable(accounts, account, now, FRESH_FOR) then Outcome(Some(accounts[account].lookup), accounts, lastFailure)
    else if !BackingOff(lastFailure, now) && answer.Some? then
      Outcome(answer, accounts[account := Cached(now, answer.value)], None)
    else
      Outcome(if Usable(accounts, account, now, STALE_FOR) then Some(accounts[account].lookup) else None,
              accounts, if BackingOff(lastFailure, now) then lastFailure else Some(seenAt))
  }

  class AccountCreditCache {
    var accounts: Accounts
    var lastFailure: Option<Time>

    constructor ()
      ensures accounts == map[] && lastFailure == None
    {
      accounts, lastFailure := map[], None;
    }

    /** `answer` is what the Lab says if it is asked, None for any failure, seen at `seenAt`. */
    method FindLookup(account: string, now: Time, answer: Option<Lookup>, seenAt: Time)
      returns (r: Option<Lookup>, ghost asked: bool)
      modifies this
      ensures asked <==> !Usable(old(accounts), account, now, FRESH_FOR) && !BackingOff(old(lastFailure), now)
      ensures !asked ==> accounts == old(accounts) && lastFailure == old(lastFailure)
      ensures asked && answer.Some? ==>
                r == answer && accounts == old(accounts)[account := Cached(now, answer.value)] && lastFailure == None
      ensures asked && answer == None ==> accounts == old(accounts) && lastFailure == Some(seenAt)
      ensures !(asked && answer.Some?) ==>
                r == if Usable(old(accounts), account, now, STALE_FOR) then Some(old(accounts)[account].lookup)
                    else None
      ensures Outcome(r, accounts, lastFailure)
                == LookedUp(old(accounts), old(lastFailure), account, now, answer, seenAt)
    {
      asked := false;
      if account in accounts && Since(now, accounts[account].fetchedAt) < FRESH_FOR {
        return Some(accounts[account].lookup), asked;
      }
      var fetched := None;
      if !BackingOff(lastFailure, now) {
        asked := true;
        fetched := answer;
        lastFailure := if answer == None then Some(seenAt) else None;
      }
      if fetched.Some? {
        accounts := accounts[account := Cached(now, fetched.value)];
        r := fetched;
      } else if account in accounts && Since(now, accounts[account].fetchedAt) < STALE_FOR {
        r := Some(accounts[account].lookup);
      } else {
        r := None;
      }
    }

    method Check(account: string, now: Time, answer: Option<Lookup>, seenAt: Time) returns (d: Decision)
      modifies this
      ensures d == NotALabAccount <==> !IsLabAccount(account)
      ensures !IsLabAccount(account) ==> accounts == old(accounts) && lastFailure == old(lastFailure)
      ensures IsLabAccount(account) ==>
                var asked := !Usable(old(accounts), account, now, FRESH_FOR) && !BackingOff(old(lastFailure), now);
                d == DecisionOf(if asked && answer.Some? then answer
                                else if Usable(old(accounts), account, now, STALE_FOR)
                                    then Some(old(accounts)[account].lookup)
                                else None)
    {
      if !IsLabAccount(account) {
        return NotALabAccount;
      }
      var found, asked := FindLookup(account, now, answer, seenAt);
      d := DecisionOf(found);
    }
  }

  // ---------------------------------------------------------------- told by ages and fields

  /** When a lookup asks, what it gives and what it leaves: an entry under 30 s old is enough; else the
      Lab is asked unless it failed less than 10 s ago; without its answer, an entry under 300 s old
      is given. A clock that went back counts as age 0. */
  lemma LookedUpExactly(accounts: Accounts, lastFailure: Option<Time>, account: string, now: Time,
      answer: Option<Lookup>,
      seenAt: Time)
    ensures var o := LookedUp(accounts, lastFailure, account, now, answer, seenAt);
            var known := account in accounts;
            var recent := known && now < accounts[account].fetchedAt + 30.0;
            var stale := known && now < accounts[account].fetchedAt + 300.0;
            var asks := !recent && (lastFailure == None || now >= lastFailure.value + 10.0);
            && (recent || (stale && !(asks && answer.Some?)) ==> o.found == Some(accounts[account].lookup))
            && (asks && answer.Some? ==> o == Outcome(answer, accounts[account := Cached(now, answer.value)], None))
            && (asks && answer == None ==> o.accounts == accounts && o.lastFailure == Some(seenAt))
            && (!asks ==> o.accounts == accounts && o.lastFailure == lastFailure)
            && (!stale && !(asks && answer.Some?) ==> o.found == None)
  {
  }

  /** Work is allowed on an active account with credits left, refused on any other the cache knows of,
      and undecided on one it does not. */
  lemma DecisionExactly(found: Option<Lookup>)
    ensures DecisionOf(found) == Allowed
       <==> found.Some? && found.value.active && found.value.balance.Some? && found.value.balance.value >= 1
    ensures DecisionOf(found) == Unavailable <==> found == None
    ensures DecisionOf(found) != NotALabAccount
  {
  }

  predicate IsHex(s: string) {
    forall c :: c in s ==> c in "0123456789abcdef"
  }

  lemma HexDigit(c: char)
    ensures c in "0123456789abcdef" <==> '0' <= c <= '9' || 'a' <= c <= 'f'
  {
    var digits := "0123456789abcdef";
    if '0' <= c <= '9' {
      assert digits[c as int - 48] == c;
    } else if 'a' <= c <= 'f' {
      assert digits[c as int - 87] == c;
    }
  }

  lemma HexExactly(s: string)
    ensures IsHex(s) <==> forall i :: 0 <= i < |s| ==> '0' <= s[i] <= '9' || 'a' <= s[i] <= 'f'
  {
    forall i | 0 <= i < |s| ensures s[i] in "0123456789abcdef" <==> '0' <= s[i] <= '9' || 'a' <= s[i] <= 'f' {
      HexDigit(s[i]);
    }
    assert IsHex(s) ==> forall i :: 0 <= i < |s| ==> s[i] in "0123456789abcdef";
  }

  /** An account of the Lab is named by 8, 4, 4, 4 and 12 small hexadecimal digits with dashes between. */
  lemma LabAccountExactly(a: string, b: string, c: string, d: string, e: string)
    requires |a| == 8 && |b| == 4 && |c| == 4 && |d| == 4 && |e| == 12
    ensures IsLabAccount(a + "-" + b + "-" + c + "-" + d + "-" + e)
       <==> IsHex(a) && IsHex(b) && IsHex(c) && IsHex(d) && IsHex(e)
  {
    var id := a + "-" + b + "-" + c + "-" + d + "-" + e;
    HexExactly(a);
    HexExactly(b);
    HexExactly(c);
    HexExactly(d);
    HexExactly(e);
    assert forall i :: 0 <= i < 8 ==> id[i] == a[i];
    assert forall i :: 0 <= i < 4 ==> id[9 + i] == b[i];
    assert forall i :: 0 <= i < 4 ==> id[14 + i] == c[i];
    assert forall i :: 0 <= i < 4 ==> id[19 + i] == d[i];
    assert forall i :: 0 <= i < 12 ==> id[24 + i] == e[i];
    assert id[8] == id[13] == id[18] == id[23] == '-';
    if IsLabAccount(id) {
      assert forall i :: 0 <= i < 8 ==> '0' <= id[i] <= '9' || 'a' <= id[i] <= 'f';
      assert forall i :: 9 <= i < 13 ==> '0' <= id[i] <= '9' || 'a' <= id[i] <= 'f';
      assert forall i :: 14 <= i < 18 ==> '0' <= id[i] <= '9' || 'a' <= id[i] <= 'f';
      assert forall i :: 19 <= i < 23 ==> '0' <= id[i] <= '9' || 'a' <= id[i] <= 'f';
      assert forall i :: 24 <= i < 36 ==> '0' <= id[i] <= '9' || 'a' <= id[i] <= 'f';
      assert forall i :: 0 <= i < 4 ==> b[i] == id[9 + i];
    }
    if IsHex(a) && IsHex(b) && IsHex(c) && IsHex(d) && IsHex(e) {
      forall i | 0 <= i < 36
        ensures if i in {8, 13, 18, 23} then id[i] == '-' else '0' <= id[i] <= '9' || 'a' <= id[i] <= 'f'
      {
        if 8 < i < 13 {
          assert id[i] == b[i - 9];
        } else if 13 < i < 18 {
          assert id[i] == c[i - 14];
        } else if 18 < i < 23 {
          assert id[i] == d[i - 19];
        } else if i > 23 {
          assert id[i] == e[i - 24];
        }
      }
    }
  }

  // ---------------------------------------------------------------- a Lab that is down

  /** One lookup while the Lab is down: when it starts, and when its failure, if it asks, is seen. */
  datatype Call = Call(account: string, now: Time, seenAt: Time)

  predicate Asks(accounts: Accounts, lastFailure: Option<Time>, c: Call) {
    !Usable(accounts, c.account, c.now, FRESH_FOR) && !BackingOff(lastFailure, c.now)
  }

  /** When the Lab is asked over a run of failing lookups; the cached accounts never change. */
  function AskTimes(accounts: Accounts, lastFailure: Option<Time>, calls: seq<Call>): seq<Time>
    decreases |calls|
  {
    if calls == [] then []
    else if Asks(accounts, lastFailure, calls[0]) then
      [calls[0].now] + AskTimes(accounts, Some(calls[0].seenAt), calls[1..])
    else AskTimes(accounts, lastFailure, calls[1..])
  }

  /** Lookups one after the other. */
  predicate InTurn(calls: seq<Call>) {
    && (forall i :: 0 <= i < |calls| ==> calls[i].now <= calls[i].seenAt)
    && forall i, j :: 0 <= i < j < |calls| ==> calls[i].seenAt <= calls[j].now
  }

  lemma {:induction false} AsksAreSpaced(accounts: Accounts, lastFailure: Option<Time>, calls: seq<Call>)
    requires InTurn(calls)
    requires lastFailure.Some? && calls != [] ==> lastFailure.value <= calls[0].now
    ensures var t := AskTimes(accounts, lastFailure, calls);
            && (forall i :: 0 < i < |t| ==> t[i] >= t[i - 1] + FAILURE_BACKOFF)
            && (t != [] && lastFailure.Some? ==> t[0] >= lastFailure.value + FAILURE_BACKOFF)
            && (t != [] ==> t[0] >= calls[0].now)
    decreases |calls|
  {
    if calls != [] {
      var asks := Asks(accounts, lastFailure, calls[0]);
      AsksAreSpaced(accounts, if asks then Some(calls[0].seenAt) else lastFailure, calls[1..]);
    }
  }

  /** How many of the times lie from `from` to `to`. */
  function CountIn(times: seq<Time>, from: Time, to: Time): nat {
    if times == [] then 0 else (if from <= times[0] <= to then 1 else 0) + CountIn(times[1..], from, to)
  }

  lemma {:induction false} SpacedFit(times: seq<Time>, from: Time, to: Time)
    requires forall i :: 0 < i < |times| ==> times[i] >= times[i - 1] + FAILURE_BACKOFF
    ensures CountIn(times, from, to) > 0 ==>
              var first := if times[0] < from then from else times[0];
              FAILURE_BACKOFF * (CountIn(times, from, to) - 1) as real <= to - first
    decreases |times|
  {
    if times != [] {
      SpacedFit(times[1..], from, to);
    }
  }

  /** While the Lab is down, a window of time sees at most one request per ten seconds and
      one more, over all accounts together. */
  lemma FailureBudget(accounts: Accounts, lastFailure: Option<Time>, calls: seq<Call>, from: Time, to: Time)
    requires InTurn(calls) && from <= to
    requires lastFailure.Some? && calls != [] ==> lastFailure.value <= calls[0].now
    ensures CountIn(AskTimes(accounts, lastFailure, calls), from, to) <= ((to - from) / FAILURE_BACKOFF).Floor + 1
  {
    var t := AskTimes(accounts, lastFailure, calls);
    AsksAreSpaced(accounts, lastFailure, calls);
    SpacedFit(t, from, to);
    var n := CountIn(t, from, to);
    if n > 0 {
      assert (n - 1) as real <= (to - from) / FAILURE_BACKOFF;
    }
  }

  lemma AskTimesNext(accounts: Accounts, lastFailure: Option<Time>, calls: seq<Call>, i: nat, done: seq<Time>)
    requires i < |calls|
    ensures done + AskTimes(accounts, lastFailure, calls[i..])
         == if Asks(accounts, lastFailure, calls[i]) then
              done + [calls[i].now] + AskTimes(accounts, Some(calls[i].seenAt), calls[i + 1..])
            else done + AskTimes(accounts, lastFailure, calls[i + 1..])
  {
    assert calls[i..][0] == calls[i] && calls[i..][1..] == calls[i + 1..];
  }

  /** One failing lookup asks or not, and leaves the state, as in `AskTimes`. */
  method FailingLookup(cache: AccountCreditCache, c: Call) returns (ghost asked: bool)
    modifies cache
    ensures asked == Asks(old(cache.accounts), old(cache.lastFailure), c)
    ensures cache.accounts == old(cache.accounts)
    ensures cache.lastFailure == if asked then Some(c.seenAt) else old(cache.lastFailure)
  {
    var r;
    r, asked := cache.FindLookup(c.account, c.now, None, c.seenAt);
  }

  /** Over any run of failing lookups the cache asks at the times of `AskTimes`, within the budget. */
  method FailingLookups(cache: AccountCreditCache, calls: seq<Call>) returns (ghost asked: seq<Time>)
    requires InTurn(calls)
    requires cache.lastFailure.Some? && calls != [] ==> cache.lastFailure.value <= calls[0].now
    modifies cache
    ensures cache.accounts == old(cache.accounts)
    ensures asked == AskTimes(old(cache.accounts), old(cache.lastFailure), calls)
    ensures forall from: Time, to: Time :: from <= to
              ==> CountIn(asked, from, to) <= ((to - from) / FAILURE_BACKOFF).Floor + 1
  {
    asked := [];
    ghost var times := AskTimes(cache.accounts, cache.lastFailure, calls);
    forall from: Time, to: Time | from <= to
      ensures CountIn(times, from, to) <= ((to - from) / FAILURE_BACKOFF).Floor + 1
    {
      FailureBudget(cache.accounts, cache.lastFailure, calls, from, to);
    }
    assert calls[0..] == calls && [] + times == times;
    for i := 0 to |calls|
      invariant cache.accounts == old(cache.accounts)
      invariant times == asked + AskTimes(cache.accounts, cache.lastFailure, calls[i..])
    {
      AskTimesNext(cache.accounts, cache.lastFailure, calls, i, asked);
      var asks := FailingLookup(cache, calls[i]);
      asked := asked + if asks then [calls[i].now] else [];
    }
    assert asked + [] == asked;
  }
}
