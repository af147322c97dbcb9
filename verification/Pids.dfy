/** Process numbers. get_pid keeps two static variables between calls: the number given
    last, and a bound below which the numbers after it are known to be unused. */
module Pids {
  import opened Basics

  const MAX_PROCESS: int := 4096
  const MAX_PID: int := MAX_PROCESS * 2

  function Next(p: int): int {
    if p + 1 >= MAX_PID then 1 else p + 1
  }

  /** How many steps of Next lead from `a` to `b`. */
  function Distance(a: int, b: int): (d: int)
    requires 1 <= a < MAX_PID && 1 <= b < MAX_PID
    ensures 0 <= d < MAX_PID
  {
    if a <= b then b - a else b - a + MAX_PID - 1
  }

  lemma DistanceNext(a: int, b: int)
    requires 1 <= a < MAX_PID && 1 <= b < MAX_PID && a != b
    ensures 1 <= Next(a) < MAX_PID && Distance(Next(a), b) == Distance(a, b) - 1
  {
  }

  /** What lies before Next(c), as seen from `a`, lies before `c` or is `c`. */
  lemma DistanceSplit(a: int, c: int, q: int)
    requires 1 <= a < MAX_PID && 1 <= c < MAX_PID && 1 <= q < MAX_PID && Next(c) != a
    ensures Distance(a, Next(c)) == Distance(a, c) + 1
    ensures Distance(a, q) < Distance(a, Next(c)) ==> Distance(a, q) < Distance(a, c) || q == c
  {
  }

  ghost function Upto(n: nat): (s: set<int>)
    ensures |s| == n && forall p :: p in s <==> 1 <= p <= n
  {
    if n == 0 then {} else Upto(n - 1) + {n}
  }

  ghost function Members(list: seq<int>): (s: set<int>)
    ensures |s| <= |list| && forall p :: p in s <==> p in list
  {
    if list == [] then {} else Members(list[1..]) + {list[0]}
  }

  ghost predicate Free(list: seq<int>, p: int) {
    1 <= p < MAX_PID && p !in list
  }

  /** With fewer processes than numbers, some number is unused. */
  lemma SomeFree(list: seq<int>) returns (f: int)
    requires |list| < MAX_PID - 1
    ensures Free(list, f)
  {
    var all := Upto(MAX_PID - 1);
    if all <= Members(list) {
      SubsetSize(all, Members(list));
    }
    f :| f in all && f !in Members(list);
  }

  lemma {:induction false} SubsetSize(a: set<int>, b: set<int>)
    requires a <= b
    ensures |a| <= |b|
  {
    assert b == a + (b - a);
  }

  /** `p` is the first unused number from `a` on, going round. */
  ghost predicate FirstFree(list: seq<int>, a: int, p: int)
    requires 1 <= a < MAX_PID
  {
    && Free(list, p)
    && forall q {:trigger Distance(a, q)} :: 1 <= q < MAX_PID && Distance(a, q) < Distance(a, p) ==> q in list
  }

  /** All numbers passed on the way from `a` to `c` are in use. */
  ghost predicate Passed(list: seq<int>, a: int, c: int)
    requires 1 <= a < MAX_PID && 1 <= c < MAX_PID
  {
    forall q {:trigger Distance(a, q)} :: 1 <= q < MAX_PID && Distance(a, q) < Distance(a, c) ==> q in list
  }

  lemma {:induction false} PassOne(list: seq<int>, a: int, c: int, f: int)
    requires 1 <= a < MAX_PID && 1 <= c < MAX_PID && Passed(list, a, c) && c in list && Free(list, f)
    ensures 1 <= Next(c) < MAX_PID && Passed(list, a, Next(c)) && Distance(Next(c), f) < Distance(c, f)
  {
    DistanceNext(c, f);
    assert Next(c) == a ==> Distance(a, f) < Distance(a, c);
    if Next(c) != a {
      forall q | 1 <= q < MAX_PID && Distance(a, q) < Distance(a, Next(c))
        ensures q in list
      {
        DistanceSplit(a, c, q);
      }
    }
  }

  class Allocator {
    var lastPid: int
    var nextSafe: int
    /** The numbers of the processes on proc_list; idle, number 0, is not on it. */
    var list: seq<int>

    /** No number strictly between lastPid and nextSafe is in use. */
    ghost predicate Valid()
      reads this
    {
      && 1 <= lastPid <= MAX_PID && 1 <= nextSafe <= MAX_PID
      && |list| + 1 <= MAX_PROCESS && Distinct(list)
      && (forall p :: p in list ==> 1 <= p < MAX_PID)
      && (forall p :: p in list ==> !(lastPid < p < nextSafe))
    }

    constructor ()
      ensures Valid() && list == [] && lastPid == MAX_PID
    {
      lastPid, nextSafe, list := MAX_PID, MAX_PID, [];
    }

    /** get_pid: the first unused number after the one given last, going round. */
    method GetPid() returns (pid: int)
      requires Valid()
      modifies this`lastPid, this`nextSafe
      ensures Valid() && pid == lastPid
      ensures FirstFree(list, Next(old(lastPid)), pid)
    {
      lastPid := lastPid + 1;
      var scan := false;
      if lastPid >= MAX_PID {
        lastPid := 1;
        scan := true;
      } else if lastPid >= nextSafe {
        scan := true;
      }
      if scan {
        Scan();
      } else {
        assert Free(list, lastPid);
      }
      pid := lastPid;
    }

    /** The part of get_pid behind its label `inside`; a jump to `repeat` starts the walk
        over the process list again. */
    method Scan()
      requires 1 <= lastPid < MAX_PID && |list| + 1 <= MAX_PROCESS && Distinct(list)
      requires forall p :: p in list ==> 1 <= p < MAX_PID
      modifies this`lastPid, this`nextSafe
      ensures Valid() && FirstFree(list, old(lastPid), lastPid)
    {
      ghost var first := lastPid;
      ghost var f := SomeFree(list);
      nextSafe := MAX_PID;
      var i := 0;
      while i < |list|
        invariant 0 <= i <= |list| && 1 <= lastPid < nextSafe <= MAX_PID
        invariant Passed(list, first, lastPid)
        invariant forall j :: 0 <= j < i ==> !(lastPid <= list[j] < nextSafe)
        decreases Distance(lastPid, f), |list| - i
      {
        var pid := list[i];
        i := i + 1;
        if pid == lastPid {
          PassOne(list, first, lastPid, f);
          lastPid := lastPid + 1;
          if lastPid >= nextSafe {
            if lastPid >= MAX_PID {
              lastPid := 1;
            }
            nextSafe := MAX_PID;
            i := 0;
          }
        } else if pid > lastPid && nextSafe > pid {
          nextSafe := pid;
        }
      }
      assert Free(list, lastPid);
    }

    /** The table part of do_fork: no process more than MAX_PROCESS. */
    method Fork() returns (pid: int)
      requires Valid()
      modifies this
      ensures Valid()
      ensures pid == -1 <==> |old(list)| + 1 >= MAX_PROCESS
      ensures pid == -1 ==> list == old(list)
      ensures pid != -1 ==> list == [pid] + old(list) && FirstFree(old(list), Next(old(lastPid)), pid)
    {
      if |list| + 1 >= MAX_PROCESS {
        return -1;
      }
      pid := GetPid();
      list := [pid] + list;
    }

    /** The table part of do_wait for a dead child. */
    method Reap(pid: int)
      requires Valid() && pid in list
      modifies this`list
      ensures Valid() && list == Remove(old(list), pid)
    {
      DistinctRemove(list, pid);
      list := Remove(list, pid);
    }
  }
}
