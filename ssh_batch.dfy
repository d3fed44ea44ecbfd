/**
 * run_cmd of the SSH proxy: the host list is deduplicated and the command
 * is dispatched to the hosts in pools of `MaxThread` workers, one pool
 * after the other. The model records which jobs go into which pool; the
 * pool itself and the remote execution are not modelled.
 */
module SshBatch {
  import opened Wrappers
  import opened SeqFacts

  /** Number of workers per pool. */
  const MaxThread: nat := 2

  /** The account login falls back to: `devops` keeps its own name, everyone else runs as `root`. */
  function DefaultUser(given: Option<string>, loginName: string): (u: string)
    ensures given.Some? ==> u == given.value
    ensures given.None? ==> u in ["devops", "root"] && (u == "devops" <==> loginName == "devops")
  {
    match given
    case Some(name) => name
    case None => if loginName != "devops" then "root" else loginName
  }

  predicate NoDuplicates<T(==)>(xs: seq<T>) {
    forall i, j :: 0 <= i < j < |xs| ==> xs[i] != xs[j]
  }

  /**
   * `list(set(ip_list))`: every host once. Python leaves the order of a set
   * unspecified; this model keeps first occurrences in input order.
   */
  function Dedup(xs: seq<string>): (r: seq<string>)
    ensures NoDuplicates(r)
    ensures forall x :: x in r <==> x in xs
    ensures |r| <= |xs|
  {
    if xs == [] then []
    else
      var r := Dedup(xs[..|xs| - 1]);
      var last := xs[|xs| - 1];
      assert forall x :: x in xs <==> x in xs[..|xs| - 1] || x == last by {
        assert xs == xs[..|xs| - 1] + [last];
      }
      if last in r then r else r + [last]
  }

  /** One remote execution: `handler(ip, user, port, cmd)`. */
  datatype Job = Job(ip: string, user: string, port: int, cmd: string)

  function Flatten<T>(bs: seq<seq<T>>): seq<T> {
    if bs == [] then [] else bs[0] + Flatten(bs[1..])
  }

  /**
   * The pools run_cmd opens, in order: runs of `n` jobs, the last one
   * possibly shorter. An empty job list still opens one (empty) pool.
   */
  function Pools<T>(xs: seq<T>, n: nat): (r: seq<seq<T>>)
    requires n > 0
    ensures |r| >= 1 && Flatten(r) == xs
    ensures forall k :: 0 <= k < |r| ==> |r[k]| <= n
    ensures forall k :: 0 <= k < |r| - 1 ==> |r[k]| == n
    ensures xs != [] ==> forall k :: 0 <= k < |r| ==> r[k] != []
    decreases |xs|
  {
    if |xs| <= n then [xs]
    else
      var rest := Pools(xs[n..], n);
      assert ([xs[..n]] + rest)[1..] == rest;
      assert xs[..n] + xs[n..] == xs;
      [xs[..n]] + rest
  }

  function Jobs(ips: seq<string>, user: string, port: int, cmd: string): (js: seq<Job>)
    ensures |js| == |ips| && forall k :: 0 <= k < |ips| ==> js[k] == Job(ips[k], user, port, cmd)
  {
    seq(|ips|, k requires 0 <= k < |ips| => Job(ips[k], user, port, cmd))
  }

  /** run_cmd: the pools of jobs in the order they are dispatched. */
  method RunCmd(ipList: seq<string>, cmd: string, user: Option<string>, loginName: string, port: int)
    returns (pools: seq<seq<Job>>)
    ensures pools == Pools(Jobs(Dedup(ipList), DefaultUser(user, loginName), port, cmd), MaxThread)
  {
    var ips := Dedup(ipList);
    var u := DefaultUser(user, loginName);
    ghost var jobs := Jobs(ips, u, port, cmd);
    var current := 0;
    pools := [];
    while true
      invariant 0 <= current <= |ips|
      invariant current < |ips| || (current == 0 && pools == [])
      invariant pools + Pools(jobs[current..], MaxThread) == Pools(jobs, MaxThread)
      decreases |ips| - current
    {
      ghost var start := current;
      var pool;
      pool, current := FillPool(ips, u, port, cmd, current);
      PoolsStep(jobs, pools, start, current);
      pools := pools + [pool];
      if current == |ips| {
        return;
      }
    }
  }

  /** The pool a batch collects is the first run of the remaining jobs. */
  lemma NextPool<T>(xs: seq<T>, start: nat, stop: nat)
    requires start <= stop <= |xs| && (start < |xs| || start == 0)
    requires stop - start == MaxThread || stop == |xs|
    requires stop - start <= MaxThread
    ensures stop < |xs| ==> Pools(xs[start..], MaxThread) == [xs[start..stop]] + Pools(xs[stop..], MaxThread)
    ensures stop == |xs| ==> Pools(xs[start..], MaxThread) == [xs[start..stop]]
  {
    var r := xs[start..];
    if stop < |xs| {
      assert r[..MaxThread] == xs[start..stop];
      assert r[MaxThread..] == xs[stop..];
    } else {
      assert r == xs[start..stop];
    }
  }

  /** One pool of run_cmd: the jobs from `start` on, until `MaxThread` are taken or the hosts run out. */
  method FillPool(ips: seq<string>, u: string, port: int, cmd: string, start: nat) returns (pool: seq<Job>, current: nat)
    requires start <= |ips|
    ensures current == if start + MaxThread <= |ips| then start + MaxThread else |ips|
    ensures pool == Jobs(ips, u, port, cmd)[start..current]
  {
    ghost var jobs := Jobs(ips, u, port, cmd);
    pool := [];
    current := start;
    var i := 0;
    while i < MaxThread
      invariant 0 <= i <= MaxThread && current == start + i <= |ips|
      invariant pool == jobs[start..current]
    {
      if current >= |ips| {
        break;
      }
      SliceSnoc(jobs, start, current);
      pool := pool + [Job(ips[current], u, port, cmd)];
      current := current + 1;
      i := i + 1;
    }
  }

  /** Appending the pool a batch collected keeps the pools dispatched so far a prefix of all pools. */
  lemma PoolsStep<T>(xs: seq<T>, done: seq<seq<T>>, start: nat, stop: nat)
    requires start <= stop <= |xs| && (start < |xs| || start == 0)
    requires stop - start == MaxThread || stop == |xs|
    requires stop - start <= MaxThread
    requires done + Pools(xs[start..], MaxThread) == Pools(xs, MaxThread)
    ensures stop < |xs| ==> (done + [xs[start..stop]]) + Pools(xs[stop..], MaxThread) == Pools(xs, MaxThread)
    ensures stop == |xs| ==> done + [xs[start..stop]] == Pools(xs, MaxThread)
  {
    NextPool(xs, start, stop);
    if stop < |xs| {
      Assoc(done, [xs[start..stop]], Pools(xs[stop..], MaxThread));
    }
  }

  /** Every listed host gets exactly one job, and every job carries the same user, port and command. */
  lemma EveryHostOnce(ipList: seq<string>, cmd: string, user: Option<string>, loginName: string, port: int)
    ensures var u := DefaultUser(user, loginName);
            var js := Flatten(Pools(Jobs(Dedup(ipList), u, port, cmd), MaxThread));
            && (forall k :: 0 <= k < |js| ==> js[k].ip in ipList && js[k] == Job(js[k].ip, u, port, cmd))
            && (forall ip :: ip in ipList ==> exists k :: 0 <= k < |js| && js[k].ip == ip)
            && (forall i, j :: 0 <= i < j < |js| ==> js[i].ip != js[j].ip)
  {
    var u := DefaultUser(user, loginName);
    var ips := Dedup(ipList);
    var js := Flatten(Pools(Jobs(ips, u, port, cmd), MaxThread));
    assert js == Jobs(ips, u, port, cmd);
    assert |js| == |ips|;
    forall ip | ip in ipList
      ensures exists k :: 0 <= k < |js| && js[k].ip == ip
    {
      assert ip in ips;
      var k :| 0 <= k < |ips| && ips[k] == ip;
      assert js[k] == Job(ips[k], u, port, cmd);
    }
  }
}
