/** loginsecurity.go: the per-key brute-force throttle, and the web login that drives it (web.go). */
module LoginSecurity {
  import opened GoTime

  type Key = string

  const MAX_LOGIN_FAILS: nat := 5
  const LOGIN_LOCK_DURATION: nat := 10 * MINUTE
  const LOGIN_FAIL_WINDOW: nat := 10 * MINUTE
  const LOGIN_RECORDS_MAX_KEEP: nat := 10000

  // ---------- the records as values ----------

  datatype Record = Record(fails: nat, firstFail: Time, lockedTill: Time)

  type Records = map<Key, Record>

  predicate WindowPassed(r: Record, now: Time) {
    now - r.firstFail > LOGIN_FAIL_WINDOW
  }

  /** The answer of allowed: whether to proceed, and otherwise how many seconds to wait. */
  datatype Answer = Answer(ok: bool, wait: int)

  /** Go's conversion of a duration to whole seconds: it truncates toward zero. */
  function WholeSeconds(d: int): int {
    if d >= 0 then d / SECOND else -(-d / SECOND)
  }

  /** allowed reads the clock twice when the key is locked: once to decide, once for the wait. */
  function AllowedAnswer(m: Records, key: Key, now: Time, later: Time): Answer {
    if key in m && now < m[key].lockedTill then Answer(false, WholeSeconds(m[key].lockedTill - later) + 1)
    else Answer(true, 0)
  }

  function AfterAllowed(m: Records, key: Key, now: Time): Records {
    if key in m && now >= m[key].lockedTill && m[key].fails > 0 && WindowPassed(m[key], now)
    then m[key := m[key].(fails := 0)]
    else m
  }

  predicate Expired(r: Record, now: Time) {
    now > r.lockedTill && WindowPassed(r, now)
  }

  function Collected(m: Records, now: Time): Records {
    map k | k in m && !Expired(m[k], now) :: m[k]
  }

  /** One more failure on a record: a new window if the old one has passed, and a lock at the fifth. */
  function Failed(r: Record, now: Time): Record {
    var r1 := if WindowPassed(r, now) then r.(fails := 0, firstFail := now) else r;
    if r1.fails + 1 >= MAX_LOGIN_FAILS then Record(0, now, now + LOGIN_LOCK_DURATION)
    else r1.(fails := r1.fails + 1)
  }

  /** The records once the key has one; a crowded table is swept before a new record goes in. */
  function WithRecord(m: Records, key: Key, now: Time): (r: Records)
    ensures key in r
  {
    if key in m then m
    else (if |m| > LOGIN_RECORDS_MAX_KEEP then Collected(m, now) else m)[key := Record(0, now, 0)]
  }

  function AfterFailure(m: Records, key: Key, now: Time): Records {
    var m1 := WithRecord(m, key, now);
    m1[key := Failed(m1[key], now)]
  }

  function AfterSuccess(m: Records, key: Key): Records {
    m - {key}
  }

  /** The key has a record whose lock has not ended. */
  predicate IsLocked(m: Records, key: Key, now: Time) {
    key in m && now < m[key].lockedTill
  }

  // ---------- the guard as an object ----------

  class LoginRecord {
    var fails: nat
    var firstFail: Time
    var lockedTill: Time

    constructor (now: Time)
      ensures Value() == Record(0, now, 0)
    {
      fails, firstFail, lockedTill := 0, now, 0;
    }

    function Value(): Record
      reads this
    {
      Record(fails, firstFail, lockedTill)
    }

    /** Count one failure, in the current window or a new one. */
    method Count(now: Time)
      modifies this
      ensures Value() == Failed(old(Value()), now)
      ensures var passed := now - old(firstFail) > 600_000_000_000;
              var n := if passed then 1 else old(fails) + 1;
              if n >= 5 then fails == 0 && firstFail == now && lockedTill == now + 600_000_000_000
              else fails == n && firstFail == (if passed then now else old(firstFail)) && lockedTill == old(lockedTill)
    {
      if now - firstFail > LOGIN_FAIL_WINDOW {
        fails := 0;
        firstFail := now;
      }
      fails := fails + 1;
      if fails >= MAX_LOGIN_FAILS {
        lockedTill := now + LOGIN_LOCK_DURATION;
        fails := 0;
        firstFail := now;
      }
    }
  }

  class LoginGuard {
    var records: map<Key, LoginRecord>

    /** No record object is shared between keys. */
    ghost predicate Valid()
      reads this
    {
      forall k, l :: k in records && l in records && k != l ==> records[k] != records[l]
    }

    ghost function Contents(): (m: Records)
      reads this, records.Values
      ensures m.Keys == records.Keys
    {
      map k | k in records :: records[k].Value()
    }

    constructor ()
      ensures Valid() && Contents() == map[]
    {
      records := map[];
    }

    method Allowed(key: Key, now: Time, later: Time) returns (a: Answer)
      requires Valid()
      modifies records.Values
      ensures Valid() && records == old(records)
      ensures a == AllowedAnswer(old(Contents()), key, now, later)
      ensures Contents() == AfterAllowed(old(Contents()), key, now)
      ensures a.ok <==> !IsLocked(old(Contents()), key, now)
      ensures if a.ok then a.wait == 0
              else
                var left := old(Contents())[key].lockedTill - later;
                a.wait == 1 + if left >= 0 then left / 1_000_000_000 else -(-left / 1_000_000_000)
      ensures forall k :: k in records ==>
        var r, s := old(Contents())[k], Contents()[k];
        && s.firstFail == r.firstFail && s.lockedTill == r.lockedTill
        && s.fails == if k == key && a.ok && now - r.firstFail > 600_000_000_000 then 0 else r.fails
    {
      if key !in records {
        return Answer(true, 0);
      }
      var r := records[key];
      if now < r.lockedTill {
        return Answer(false, WholeSeconds(r.lockedTill - later) + 1);
      }
      // a counter that outlived its window starts over
      if r.fails > 0 && now - r.firstFail > LOGIN_FAIL_WINDOW {
        r.fails := 0;
      }
      return Answer(true, 0);
    }

    method OnFailure(key: Key, now: Time)
      requires Valid()
      modifies this, records.Values
      ensures Valid() && fresh(records.Values - old(records.Values))
      ensures Contents() == AfterFailure(old(Contents()), key, now)
    {
      hide Failed, WithRecord;
      EnsureRecord(key, now);
      ghost var m := Contents();
      records[key].Count(now);
      assert Contents() == m[key := Failed(m[key], now)];
    }

    method EnsureRecord(key: Key, now: Time)
      requires Valid()
      modifies this
      ensures Valid() && key in records && fresh(records.Values - old(records.Values))
      ensures Contents() == WithRecord(old(Contents()), key, now)
      ensures key in old(Contents()) ==> Contents() == old(Contents())
      ensures key !in old(Contents()) ==> Contents()[key] == Record(0, now, 0)
      ensures key !in old(Contents()) ==> forall k :: k in old(Contents()) ==>
        var r := old(Contents())[k];
        if |old(Contents())| > 10000 && now > r.lockedTill && now - r.firstFail > 600_000_000_000
        then k !in Contents()
        else k in Contents() && Contents()[k] == r
    {
      WithRecordMeans(Contents(), key, now);
      hide Collected;
      if key !in records {
        assert |records.Keys| == |Contents().Keys|;
        if |records| > LOGIN_RECORDS_MAX_KEEP {
          GcLocked(now);
        }
        AddRecord(key, now);
      }
    }

    method AddRecord(key: Key, now: Time)
      requires Valid() && key !in records
      modifies this
      ensures Valid() && fresh(records.Values - old(records.Values))
      ensures Contents() == old(Contents())[key := Record(0, now, 0)]
    {
      var r := new LoginRecord(now);
      records := records[key := r];
    }

    method OnSuccess(key: Key)
      requires Valid()
      modifies this
      ensures Valid() && records.Values <= old(records.Values)
      ensures Contents() == AfterSuccess(old(Contents()), key) == old(Contents()) - {key}
    {
      records := records - {key};
    }

    method GcLocked(now: Time)
      requires Valid()
      modifies this
      ensures Valid() && records.Keys <= old(records.Keys) && records.Values <= old(records.Values)
      ensures Contents() == Collected(old(Contents()), now)
      ensures forall k :: k in old(Contents()) ==>
        var r := old(Contents())[k];
        if now > r.lockedTill && now - r.firstFail > 600_000_000_000 then k !in Contents()
        else k in Contents() && Contents()[k] == r
    {
      ghost var was := records;
      var todo := records.Keys;
      while todo != {}
        invariant todo <= was.Keys
        invariant records == map k | k in was && (k in todo || !Expired(was[k].Value(), now)) :: was[k]
      {
        var k :| k in todo;
        var r := records[k];
        if now > r.lockedTill && now - r.firstFail > LOGIN_FAIL_WINDOW {
          records := records - {k};
        }
        todo := todo - {k};
      }
    }

    /** One web login: throttle by client address and user name, check the password, then count or clear. */
    method WebLogin(passwords: map<string, string>, clientIP: string, user: string, password: string,
                    at: Time, later: Time, failAt: Time)
      returns (status: Status)
      requires Valid() && at <= later && at <= failAt
      modifies this, records.Values
      ensures Valid() && fresh(records.Values - old(records.Values))
      ensures var correct := user in passwords && passwords[user] == password;
              var a := Attempt(clientIP + "|" + user, correct, at, later, failAt);
              status == LoginStatus(old(Contents()), a) && Contents() == AfterLogin(old(Contents()), a)
      ensures var m, key := old(Contents()), clientIP + "|" + user;
              var locked := key in m && at < m[key].lockedTill;
              var correct := user in passwords && passwords[user] == password;
              && (status.TooManyRequests? <==> locked)
              && (status.LoggedIn? <==> !locked && correct)
              && (status.TooManyRequests? ==> Contents() == m)
              && (status.LoggedIn? ==> Contents() == m - {key})
              && (status.Unauthorized? ==>
                    key in Contents()
                    && Contents()[key] == Failed(if key in m then m[key] else Record(0, failAt, 0), failAt))
    {
      LoginMeans(Contents(), Attempt(clientIP + "|" + user, user in passwords && passwords[user] == password,
                                     at, later, failAt));
      var key := clientIP + "|" + user;
      var answer := Allowed(key, at, later);
      if !answer.ok {
        return TooManyRequests(answer.wait);
      }
      if user !in passwords || passwords[user] != password {
        OnFailure(key, failAt);
        return Unauthorized;
      }
      OnSuccess(key);
      return LoggedIn;
    }
  }

  // ---------- one login as a step on values ----------

  datatype Status = TooManyRequests(wait: int) | Unauthorized | LoggedIn

  /** A login attempt: its key, whether the password is right, and the clock readings it makes. */
  datatype Attempt = Attempt(key: Key, correct: bool, at: Time, later: Time, failAt: Time)

  function LoginStatus(m: Records, a: Attempt): Status {
    var answer := AllowedAnswer(m, a.key, a.at, a.later);
    if !answer.ok then TooManyRequests(answer.wait) else if a.correct then LoggedIn else Unauthorized
  }

  function AfterLogin(m: Records, a: Attempt): Records {
    var m1 := AfterAllowed(m, a.key, a.at);
    match LoginStatus(m, a)
    case TooManyRequests(_) => m1
    case Unauthorized => AfterFailure(m1, a.key, a.failAt)
    case LoggedIn => AfterSuccess(m1, a.key)
  }

  // ---------- what the steps mean ----------

  lemma WithRecordMeans(m: Records, key: Key, now: Time)
    ensures var n := WithRecord(m, key, now);
            if key in m then n == m
            else
              && n[key] == Record(0, now, 0)
              && forall k :: k in m ==>
                   if |m| > 10000 && now > m[k].lockedTill && now - m[k].firstFail > 600_000_000_000 then k !in n
                   else k in n && n[k] == m[k]
  {
  }

  /** A login is refused exactly while the key is locked, and otherwise succeeds exactly with the right password. */
  lemma LoginMeans(m: Records, a: Attempt)
    requires a.at <= a.failAt
    ensures var status, n := LoginStatus(m, a), AfterLogin(m, a);
            && (status.TooManyRequests? <==> a.key in m && a.at < m[a.key].lockedTill)
            && (status.LoggedIn? <==> !status.TooManyRequests? && a.correct)
            && (status.TooManyRequests? ==> n == m)
            && (status.LoggedIn? ==> n == m - {a.key})
            && (status.Unauthorized? ==>
                  a.key in n && n[a.key] == Failed(if a.key in m then m[a.key] else Record(0, a.failAt, 0), a.failAt))
  {
    assert AfterAllowed(m, a.key, a.at) - {a.key} == m - {a.key};
  }
}
