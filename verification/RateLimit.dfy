/** The per-key token bucket, in exact real arithmetic with times in seconds. */
module RateLimit {

  datatype Bucket = Bucket(tokens: real, last: real)

  datatype Config = Config(rate: real, burst: int)

  datatype Request = Request(key: string, at: real)

  type Buckets = map<string, Bucket>

  function Min(a: real, b: real): real {
    if a < b then a else b
  }

  /** The tokens that flow in between two times. */
  function Inflow(rate: real, from: real, to: real): real {
    (to - from) * rate
  }

  /** The key's bucket at time t, before a token is taken; a new key has a full one. */
  function Refilled(c: Config, m: Buckets, key: string, t: real): Bucket {
    var b := if key in m then m[key] else Bucket(c.burst as real, t);
    Bucket(Min(c.burst as real, b.tokens + Inflow(c.rate, b.last, t)), t)
  }

  predicate Grants(c: Config, m: Buckets, r: Request) {
    Refilled(c, m, r.key, r.at).tokens >= 1.0
  }

  /** The wait that a denial promises. */
  function Wait(c: Config, m: Buckets, r: Request): real
    requires c.rate > 0.0
  {
    (1.0 - Refilled(c, m, r.key, r.at).tokens) / c.rate
  }

  function Serve(c: Config, m: Buckets, r: Request): Buckets {
    var b := Refilled(c, m, r.key, r.at);
    m[r.key := if b.tokens >= 1.0 then Bucket(b.tokens - 1.0, r.at) else b]
  }

  class Limiter {
    const config: Config
    var buckets: Buckets

    constructor (config: Config)
      ensures this.config == config && buckets == map[]
    {
      this.config := config;
      buckets := map[];
    }

    method Allow(key: string, now: real) returns (ok: bool, wait: real)
      requires config.rate > 0.0
      modifies this
      ensures buckets == Serve(config, old(buckets), Request(key, now))
      ensures ok <==> Grants(config, old(buckets), Request(key, now))
      ensures wait == if ok then 0.0 else Wait(config, old(buckets), Request(key, now))
    {
      hide Inflow;
      if key !in buckets {
        buckets := buckets[key := Bucket(config.burst as real, now)];
      }
      var b := buckets[key];
      b := b.(tokens := Min(config.burst as real, b.tokens + Inflow(config.rate, b.last, now)));
      b := b.(last := now);
      if b.tokens >= 1.0 {
        b := b.(tokens := b.tokens - 1.0);
        buckets := buckets[key := b];
        return true, 0.0;
      }
      buckets := buckets[key := b];
      return false, (1.0 - b.tokens) / config.rate;
    }
  }

  // ------------------------------------------------------------------ histories

  /** A new limiter after these requests. */
  function After(c: Config, rs: seq<Request>): Buckets {
    if rs == [] then map[] else Serve(c, After(c, rs[..|rs| - 1]), rs[|rs| - 1])
  }

  predicate Admitted(c: Config, rs: seq<Request>, k: nat)
    requires k < |rs|
  {
    Grants(c, After(c, rs[..k]), rs[k])
  }

  predicate Monotone(rs: seq<Request>) {
    forall i, j :: 0 <= i < j < |rs| ==> rs[i].at <= rs[j].at
  }

  /** How many requests of this key were admitted from `from` to `to`. */
  function AdmittedBetween(c: Config, rs: seq<Request>, key: string, from: real, to: real): nat {
    if rs == [] then 0
    else
      var n := |rs| - 1;
      AdmittedBetween(c, rs[..n], key, from, to)
      + if rs[n].key == key && from <= rs[n].at <= to && Grants(c, After(c, rs[..n]), rs[n]) then 1 else 0
  }

  function Burst(c: Config): real {
    if c.burst < 0 then 0.0 else c.burst as real
  }

  /** With a monotone clock a bucket never holds more than the burst, nor less than nothing unless the burst does;
      and it was last used no later than the last request. */
  ghost predicate Sound(c: Config, m: Buckets, key: string, now: real) {
    key in m ==>
      && m[key].last <= now
      && m[key].tokens <= c.burst as real
      && (if c.burst < 1 then m[key].tokens == c.burst as real else m[key].tokens >= 0.0)
  }

  /** What has been admitted since `from`, plus what is left, is at most the burst plus what has flowed in. */
  ghost predicate Accounted(c: Config, m: Buckets, key: string, from: real, admitted: nat) {
    if key in m && m[key].last >= from then
      admitted as real + m[key].tokens <= c.burst as real + Inflow(c.rate, from, m[key].last)
    else admitted == 0
  }

  lemma Flow(rate: real, from: real, mid: real, to: real)
    ensures Inflow(rate, from, mid) + Inflow(rate, mid, to) == Inflow(rate, from, to)
  {
  }

  lemma FlowsIn(rate: real, from: real, to: real)
    requires rate > 0.0 && from <= to
    ensures Inflow(rate, from, to) >= 0.0
  {
  }

  lemma ServeSound(c: Config, m: Buckets, r: Request, key: string, now: real)
    requires c.rate > 0.0 && Sound(c, m, key, now) && now <= r.at
    ensures Sound(c, Serve(c, m, r), key, r.at)
  {
    hide Inflow;
    if r.key == key {
      FlowsIn(c.rate, if key in m then m[key].last else r.at, r.at);
    }
  }

  lemma {:induction false} ServeAccounted(c: Config, m: Buckets, r: Request, key: string, now: real, from: real,
                                          admitted: nat)
    requires c.rate > 0.0 && Sound(c, m, key, now) && now <= r.at && Accounted(c, m, key, from, admitted)
    ensures var one := if r.key == key && from <= r.at && Grants(c, m, r) then 1 else 0;
            Accounted(c, Serve(c, m, r), key, from, admitted + one)
  {
    hide Inflow;
    if r.key == key && from <= r.at {
      FlowsIn(c.rate, from, r.at);
      if key in m {
        Flow(c.rate, from, m[key].last, r.at);
      }
    }
  }

  lemma {:induction false} HistorySound(c: Config, rs: seq<Request>, key: string, now: real)
    requires c.rate > 0.0 && Monotone(rs) && (rs != [] ==> rs[|rs| - 1].at <= now)
    ensures Sound(c, After(c, rs), key, now)
  {
    hide Serve;
    if rs != [] {
      var n := |rs| - 1;
      HistorySound(c, rs[..n], key, rs[n].at);
      ServeSound(c, After(c, rs[..n]), rs[n], key, rs[n].at);
    }
  }

  lemma {:induction false} HistoryAccounted(c: Config, rs: seq<Request>, key: string, from: real, to: real)
    requires c.rate > 0.0 && Monotone(rs) && (rs != [] ==> rs[|rs| - 1].at <= to)
    ensures Accounted(c, After(c, rs), key, from, AdmittedBetween(c, rs, key, from, to))
  {
    hide Serve, Grants;
    if rs != [] {
      var n := |rs| - 1;
      HistoryAccounted(c, rs[..n], key, from, to);
      HistorySound(c, rs[..n], key, rs[n].at);
      ServeAccounted(c, After(c, rs[..n]), rs[n], key, rs[n].at, from, AdmittedBetween(c, rs[..n], key, from, to));
    }
  }

  /** In any window of length T a key is admitted at most burst + rate * T times. */
  lemma {:induction false} WindowBound(c: Config, rs: seq<Request>, key: string, from: real, to: real)
    requires c.rate > 0.0 && Monotone(rs) && from <= to
    ensures AdmittedBetween(c, rs, key, from, to) as real <= Burst(c) + c.rate * (to - from)
  {
    hide Serve, Grants, After, Inflow;
    FlowsIn(c.rate, from, to);
    assert c.rate * (to - from) == Inflow(c.rate, from, to) by {
      InflowIs(c.rate, from, to);
    }
    if rs != [] {
      var n := |rs| - 1;
      if rs[n].at > to {
        WindowBound(c, rs[..n], key, from, to);
      } else {
        HistoryAccounted(c, rs, key, from, to);
        HistorySound(c, rs, key, to);
        var m := After(c, rs);
        if key in m {
          FlowsIn(c.rate, m[key].last, to);
          Flow(c.rate, from, m[key].last, to);
        }
      }
    }
  }

  lemma InflowIs(rate: real, from: real, to: real)
    ensures Inflow(rate, from, to) == rate * (to - from)
  {
  }

  // ------------------------------------------------------------------ every denial is due

  /** What has been admitted since `from`, plus what is left, is at least the burst plus what has flowed in. */
  ghost predicate Spent(c: Config, b: Bucket, from: real, admitted: nat) {
    admitted as real + b.tokens >= c.burst as real + Inflow(c.rate, from, b.last)
  }

  lemma {:induction false} LaterMore(c: Config, rs: seq<Request>, key: string, from: real, to: real, later: real)
    requires to <= later
    ensures AdmittedBetween(c, rs, key, from, to) <= AdmittedBetween(c, rs, key, from, later)
  {
    if rs != [] {
      hide Grants, After;
      LaterMore(c, rs[..|rs| - 1], key, from, to, later);
    }
  }

  /** After serving a request the bucket is spent, counted from that request if it found the bucket full, and
      otherwise from where it was counted before. */
  lemma ServeSpent(c: Config, m: Buckets, r: Request, from: real, admitted: nat)
    requires r.key in m ==> Spent(c, m[r.key], from, admitted)
    ensures var one := if Grants(c, m, r) then 1 else 0;
            var b := Serve(c, m, r)[r.key];
            b.last == r.at && (Spent(c, b, r.at, one) || (r.key in m && Spent(c, b, from, admitted + one)))
  {
    assert Inflow(c.rate, r.at, r.at) == 0.0;
    hide Inflow;
    if r.key in m {
      Flow(c.rate, from, m[r.key].last, r.at);
    }
  }

  /** A bucket is spent since some request of its key. */
  lemma {:induction false} SpentSince(c: Config, rs: seq<Request>, key: string, now: real) returns (i: nat)
    requires Monotone(rs) && (rs != [] ==> rs[|rs| - 1].at <= now) && key in After(c, rs)
    ensures i < |rs| && rs[i].key == key
    ensures Spent(c, After(c, rs)[key], rs[i].at, AdmittedBetween(c, rs, key, rs[i].at, now))
  {
    var n := |rs| - 1;
    var before, r := After(c, rs[..n]), rs[n];
    if r.key != key {
      i := SpentSince(c, rs[..n], key, now);
    } else {
      hide Serve, Grants, Spent;
      assert After(c, rs) == Serve(c, before, r);
      var from, admitted := r.at, 0;
      i := n;
      if key in before {
        i := SpentSince(c, rs[..n], key, now);
        from, admitted := rs[i].at, AdmittedBetween(c, rs[..n], key, rs[i].at, now);
      }
      var one := if Grants(c, before, r) then 1 else 0;
      ServeSpent(c, before, r, from, admitted);
      var b := Serve(c, before, r)[key];
      if Spent(c, b, r.at, one) {
        i := n;
        MoreSpent(c, b, r.at, one, AdmittedBetween(c, rs, key, r.at, now));
      }
    }
  }

  lemma MoreSpent(c: Config, b: Bucket, from: real, admitted: nat, more: nat)
    requires Spent(c, b, from, admitted) && admitted <= more
    ensures Spent(c, b, from, more)
  {
  }

  /** Admitting request j keeps within burst + rate * T the window from request i to j. */
  ghost predicate WithinWindow(c: Config, rs: seq<Request>, i: nat, j: nat)
    requires i <= j < |rs|
  {
    AdmittedBetween(c, rs[..j], rs[j].key, rs[i].at, rs[j].at) as real + 1.0
    <= c.burst as real + c.rate * (rs[j].at - rs[i].at)
  }

  /** With a burst, a request is denied only if admitting it would go beyond burst + rate * T in the window that
      begins at some request of its key: every denial is due. */
  lemma DenialIsDue(c: Config, rs: seq<Request>, j: nat) returns (i: nat)
    requires c.burst >= 1 && Monotone(rs) && j < |rs| && !Admitted(c, rs, j)
    ensures i <= j && rs[i].key == rs[j].key && !WithinWindow(c, rs, i, j)
  {
    hide After, Serve, AdmittedBetween;
    var key, m := rs[j].key, After(c, rs[..j]);
    assert Inflow(c.rate, rs[j].at, rs[j].at) == 0.0;
    hide Inflow;
    i := SpentSince(c, rs[..j], key, rs[j].at);
    Flow(c.rate, rs[i].at, m[key].last, rs[j].at);
    InflowIs(c.rate, rs[i].at, rs[j].at);
  }

  /** Exactly when a request is admitted, in terms of what was admitted before: when in every window that begins at
      a request of its key, itself included, no more than burst + rate * T are admitted. */
  lemma AdmittedExactly(c: Config, rs: seq<Request>, j: nat)
    requires c.rate > 0.0 && Monotone(rs) && j < |rs|
    ensures Admitted(c, rs, j) <==> forall i :: 0 <= i <= j && rs[i].key == rs[j].key ==> WithinWindow(c, rs, i, j)
  {
    hide Admitted, WithinWindow;
    if Admitted(c, rs, j) {
      forall i | 0 <= i <= j && rs[i].key == rs[j].key
        ensures WithinWindow(c, rs, i, j)
      {
        AdmittedWithin(c, rs, i, j);
      }
    } else if c.burst >= 1 {
      var i := DenialIsDue(c, rs, j);
    } else {
      NoRoom(c, rs, j);
    }
  }

  lemma AdmittedWithin(c: Config, rs: seq<Request>, i: nat, j: nat)
    requires c.rate > 0.0 && Monotone(rs) && i <= j < |rs| && rs[i].key == rs[j].key && Admitted(c, rs, j)
    ensures WithinWindow(c, rs, i, j)
  {
    hide After, Grants, AdmittedBetween, Burst;
    BurstNeeded(c, After(c, rs[..j]), rs[j]);
    CountAdmitted(c, rs[..j], rs[j], rs[i].at);
    var upTo := rs[..j] + [rs[j]];
    assert upTo == rs[..j + 1] && Monotone(upTo);
    WindowBound(c, upTo, rs[j].key, rs[i].at, rs[j].at);
  }

  lemma CountAdmitted(c: Config, rs: seq<Request>, r: Request, from: real)
    requires from <= r.at && Grants(c, After(c, rs), r)
    ensures AdmittedBetween(c, rs + [r], r.key, from, r.at) == AdmittedBetween(c, rs, r.key, from, r.at) + 1
  {
    hide Grants, After;
    assert (rs + [r])[..|rs|] == rs;
  }

  lemma BurstNeeded(c: Config, m: Buckets, r: Request)
    requires Grants(c, m, r)
    ensures c.burst >= 1 && Burst(c) == c.burst as real
  {
  }

  lemma NoRoom(c: Config, rs: seq<Request>, j: nat)
    requires c.burst < 1 && j < |rs|
    ensures !WithinWindow(c, rs, j, j)
  {
    hide AdmittedBetween;
  }

  // ------------------------------------------------------------------ retrying

  /** The key's bucket has been filling at the rate since it held `held`, and holds less than a token. */
  predicate Filling(c: Config, m: Buckets, key: string, held: real, since: real, now: real) {
    && key in m && since <= m[key].last <= now
    && m[key].tokens == held + Inflow(c.rate, since, m[key].last) < 1.0
  }

  lemma DenialFills(c: Config, m: Buckets, r: Request)
    requires !Grants(c, m, r)
    ensures Filling(c, Serve(c, m, r), r.key, Refilled(c, m, r.key, r.at).tokens, r.at, r.at)
  {
    assert Inflow(c.rate, r.at, r.at) == 0.0;
    hide Inflow;
  }

  lemma ServeFills(c: Config, m: Buckets, r: Request, key: string, held: real, since: real, now: real)
    requires c.burst >= 1 && Filling(c, m, key, held, since, now) && now <= r.at
    requires r.key == key ==> !Grants(c, m, r)
    ensures Filling(c, Serve(c, m, r), key, held, since, r.at)
  {
    hide Inflow;
    Flow(c.rate, since, m[key].last, r.at);
  }

  /** From the denial at i up to k, the key's bucket fills at the rate from what it held then. */
  lemma {:induction false} FillsAfterDenial(c: Config, rs: seq<Request>, i: nat, k: nat)
    requires c.burst >= 1 && Monotone(rs) && i < k <= |rs|
    requires forall n :: i <= n < k && rs[n].key == rs[i].key ==> !Admitted(c, rs, n)
    ensures Filling(c, After(c, rs[..k]), rs[i].key, Refilled(c, After(c, rs[..i]), rs[i].key, rs[i].at).tokens,
                    rs[i].at, rs[k - 1].at)
  {
    hide Grants, Serve, Filling, Refilled;
    var before := After(c, rs[..k - 1]);
    assert rs[..k][..k - 1] == rs[..k - 1];
    assert After(c, rs[..k]) == Serve(c, before, rs[k - 1]);
    assert rs[k - 1].key == rs[i].key ==> !Admitted(c, rs, k - 1);
    if k == i + 1 {
      DenialFills(c, before, rs[i]);
    } else {
      FillsAfterDenial(c, rs, i, k - 1);
      var held := Refilled(c, After(c, rs[..i]), rs[i].key, rs[i].at).tokens;
      ServeFills(c, before, rs[k - 1], rs[i].key, held, rs[i].at, rs[k - 2].at);
    }
  }

  lemma WaitIsEnough(rate: real, held: real, from: real, to: real)
    requires rate > 0.0
    ensures held + Inflow(rate, from, to) >= 1.0 <==> to - from >= (1.0 - held) / rate
  {
    var w := (1.0 - held) / rate;
    InflowIs(rate, from, to);
    Products(rate, to - from, w);
    assert rate * w == 1.0 - held;
  }

  lemma Products(a: real, x: real, y: real)
    requires a > 0.0
    ensures a * x >= a * y <==> x >= y
  {
    assert a * x - a * y == a * (x - y);
    if x >= y {
      assert a * (x - y) >= 0.0;
    } else {
      assert a * (y - x) > 0.0;
    }
  }

  /** After a denial that promised a wait, whatever was denied in between, the next request is admitted
      exactly when the wait is over and the limiter has a burst at all. */
  lemma RetryAfter(c: Config, rs: seq<Request>, i: nat, j: nat)
    requires c.rate > 0.0 && Monotone(rs) && i < j < |rs| && rs[j].key == rs[i].key
    requires forall n :: i <= n < j && rs[n].key == rs[i].key ==> !Admitted(c, rs, n)
    ensures Admitted(c, rs, j) <==> c.burst >= 1 && rs[j].at - rs[i].at >= Wait(c, After(c, rs[..i]), rs[i])
  {
    hide After, Serve, Inflow;
    if c.burst >= 1 {
      FillsAfterDenial(c, rs, i, j);
      var held := Refilled(c, After(c, rs[..i]), rs[i].key, rs[i].at).tokens;
      var b := After(c, rs[..j])[rs[i].key];
      Flow(c.rate, rs[i].at, b.last, rs[j].at);
      WaitIsEnough(c.rate, held, rs[i].at, rs[j].at);
    }
  }

  /** With a burst, as the configuration demands, a promised wait is always kept, to the moment. */
  lemma PromiseKept(c: Config, rs: seq<Request>, i: nat, j: nat)
    requires c.rate > 0.0 && c.burst >= 1 && Monotone(rs) && i < j < |rs| && rs[j].key == rs[i].key
    requires forall n :: i <= n < j && rs[n].key == rs[i].key ==> !Admitted(c, rs, n)
    ensures Admitted(c, rs, j) <==> rs[j].at - rs[i].at >= Wait(c, After(c, rs[..i]), rs[i])
  {
    hide After, Admitted;
    RetryAfter(c, rs, i, j);
  }

  /** The smallest case: a burst of zero promises one second and does not keep it. */
  lemma PromiseBroken()
    ensures var c := Config(1.0, 0);
            var rs := [Request("k", 0.0), Request("k", 1.0)];
            && !Admitted(c, rs, 0) && Wait(c, After(c, rs[..0]), rs[0]) == 1.0
            && rs[1].at - rs[0].at >= 1.0 && !Admitted(c, rs, 1)
  {
    var c := Config(1.0, 0);
    var rs := [Request("k", 0.0), Request("k", 1.0)];
    assert rs[..0] == [];
    assert !Admitted(c, rs, 0);
    RetryAfter(c, rs, 0, 1);
  }
}
