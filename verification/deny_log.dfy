/** The rate limit on denial log entries (internal/app/common/ipfilter/ipfilter.go:13-19, 204-240).
    Times are nanoseconds. */
module DenyLog {

  const INTERVAL: int := 300_000_000_000
  const MAX_ENTRIES: int := 1024

  type Table = map<string, int>

  datatype Call = Call(host: string, now: int)

  /** The readings do not run backwards in the order of the calls. A reading is taken before logMu is, so
      this is about the order in which callers get the lock as well as about the clock. */
  ghost predicate Monotone(calls: seq<Call>) {
    forall i, j :: 0 <= i < j < |calls| ==> calls[i].now <= calls[j].now
  }

  predicate Recent(t: Table, c: Call) {
    c.host in t && c.now - t[c.host] < INTERVAL
  }

  function Expire(t: Table, now: int): Table {
    map h | h in t && now - t[h] < INTERVAL :: t[h]
  }

  /** The table after a call, dropping expired entries once it is full. */
  function Next(t: Table, c: Call): Table {
    if Recent(t, c) then t
    else (if |t| >= MAX_ENTRIES then Expire(t, c.now) else t)[c.host := c.now]
  }

  /** The same without ever dropping anything. */
  function NextFull(t: Table, c: Call): Table {
    if Recent(t, c) then t else t[c.host := c.now]
  }

  function Answers(t: Table, calls: seq<Call>): (r: seq<bool>)
    ensures |r| == |calls|
    decreases |calls|
  {
    if calls == [] then [] else [!Recent(t, calls[0])] + Answers(Next(t, calls[0]), calls[1..])
  }

  function AnswersFull(t: Table, calls: seq<Call>): (r: seq<bool>)
    ensures |r| == |calls|
    decreases |calls|
  {
    if calls == [] then [] else [!Recent(t, calls[0])] + AnswersFull(NextFull(t, calls[0]), calls[1..])
  }

  /** A logged call is entered with its time. A table of fewer than 1024 entries keeps all the others; a
      fuller one keeps exactly those of the last five minutes, unchanged. */
  lemma LoggedEntry(t: Table, c: Call)
    requires !Recent(t, c)
    ensures var t' := Next(t, c);
      && c.host in t' && t'[c.host] == c.now
      && (forall h :: h in t' && h != c.host ==> h in t && t'[h] == t[h])
      && (forall h :: h in t && h != c.host ==>
            (h in t' <==> |t| < 1024 || c.now - t[h] < 5 * 60 * 1_000_000_000))
  {
    assert INTERVAL == 5 * 60 * 1_000_000_000;
  }

  /** What the pruned table lacks has expired. */
  ghost predicate Prunes(t: Table, full: Table, now: int) {
    && (forall h :: h in t ==> h in full && t[h] == full[h])
    && (forall h :: h in full && h !in t ==> now - full[h] >= INTERVAL)
  }

  lemma PrunesNext(t: Table, full: Table, before: int, c: Call)
    requires Prunes(t, full, before) && before <= c.now
    ensures Recent(t, c) <==> Recent(full, c)
    ensures Prunes(Next(t, c), NextFull(full, c), c.now)
  {
  }

  lemma {:induction false} SameAnswersFrom(t: Table, full: Table, before: int, calls: seq<Call>)
    requires Prunes(t, full, before) && Monotone(calls)
    requires calls != [] ==> before <= calls[0].now
    ensures Answers(t, calls) == AnswersFull(full, calls)
    decreases |calls|
  {
    hide Next, NextFull, Prunes, Recent;
    if calls != [] {
      var c := calls[0];
      PrunesNext(t, full, before, c);
      if |calls| > 1 { assert calls[1..][0] == calls[1]; }
      SameAnswersFrom(Next(t, c), NextFull(full, c), c.now, calls[1..]);
    }
  }

  /** Pruning is invisible: every call of every run is answered as if no entry were ever dropped. */
  lemma SameAnswers(calls: seq<Call>)
    requires Monotone(calls)
    ensures Answers(map[], calls) == AnswersFull(map[], calls)
  {
    if calls != [] { SameAnswersFrom(map[], map[], calls[0].now, calls); }
  }

  // ---------------------------------------------------------------- what the answers say

  /** The table after the calls, nothing ever dropped. */
  function After(t: Table, calls: seq<Call>): Table
    decreases |calls|
  {
    if calls == [] then t else NextFull(After(t, calls[..|calls| - 1]), calls[|calls| - 1])
  }

  lemma {:induction false} AnswerAt(t: Table, calls: seq<Call>, j: nat)
    requires j < |calls|
    ensures AnswersFull(t, calls)[j] == !Recent(After(t, calls[..j]), calls[j])
    decreases |calls|
  {
    hide Recent, NextFull;
    if j > 0 {
      AnswerAt(NextFull(t, calls[0]), calls[1..], j - 1);
      AfterCons(t, calls[..j]);
      assert calls[..j][1..] == calls[1..][..j - 1];
    } else {
      assert calls[..0] == [];
    }
  }

  lemma {:induction false} AfterCons(t: Table, calls: seq<Call>)
    requires calls != []
    ensures After(t, calls) == After(NextFull(t, calls[0]), calls[1..])
    decreases |calls|
  {
    hide NextFull;
    var n := |calls| - 1;
    if n > 0 {
      AfterCons(t, calls[..n]);
      assert calls[..n][1..] == calls[1..][..n - 1] && calls[1..][n - 1] == calls[n];
    } else {
      assert calls[..0] == [] && calls[1..] == [];
    }
  }

  /** Entry i of the answers was logged for the host. */
  ghost predicate LoggedAt(calls: seq<Call>, i: int, host: string) {
    0 <= i < |calls| && calls[i].host == host && Answers(map[], calls)[i]
  }

  /** Entry i is the last one logged for the host before n. */
  ghost predicate LastBefore(calls: seq<Call>, n: nat, host: string, i: int) {
    0 <= i < n && LoggedAt(calls, i, host) && forall j :: i < j < n ==> !LoggedAt(calls, j, host)
  }

  ghost predicate NoneBefore(calls: seq<Call>, n: nat, host: string) {
    forall j :: 0 <= j < n ==> !LoggedAt(calls, j, host)
  }

  /** The table holds, for every host, the time of its last logged call, and nothing else. */
  lemma {:induction false} TableIsLastLogged(calls: seq<Call>, n: nat, host: string) returns (i: int)
    requires n <= |calls| && Monotone(calls)
    ensures var t := After(map[], calls[..n]);
      if host in t then LastBefore(calls, n, host, i) && t[host] == calls[i].now else NoneBefore(calls, n, host)
    decreases n
  {
    hide Recent, AnswersFull, Answers;
    SameAnswers(calls);
    i := 0;
    if n > 0 {
      var m := n - 1;
      i := TableIsLastLogged(calls, m, host);
      assert calls[..n][..m] == calls[..m] && calls[..n][m] == calls[m];
      AnswerAt(map[], calls, m);
      assert After(map[], calls[..n]) == NextFull(After(map[], calls[..m]), calls[m]);
      if LoggedAt(calls, m, host) { i := m; }
    }
  }

  /** Every logged entry for the host of call j before it is at least the interval away. */
  ghost predicate Apart(calls: seq<Call>, j: nat)
    requires j < |calls|
  {
    forall i :: 0 <= i < j && LoggedAt(calls, i, calls[j].host) ==> calls[j].now - calls[i].now >= 300 * 1_000_000_000
  }

  /** Two logged entries for one host are at least the interval apart; a suppressed one lies within
      the interval of a logged one before it. */
  lemma LogSpacing(calls: seq<Call>, j: nat)
    requires Monotone(calls) && j < |calls|
    ensures Answers(map[], calls)[j] <==> Apart(calls, j)
  {
    hide Answers, AnswersFull, After;
    SameAnswers(calls);
    AnswerAt(map[], calls, j);
    var k := TableIsLastLogged(calls, j, calls[j].host);
    if calls[j].host in After(map[], calls[..j]) {
      forall i | 0 <= i < j && LoggedAt(calls, i, calls[j].host) ensures calls[i].now <= calls[k].now {
        assert i <= k;
      }
    }
  }

  // ---------------------------------------------------------------- the program

  class Limiter {
    var denied: Table

    constructor ()
      ensures denied == map[]
    {
      denied := map[];
    }

    /** shouldLog. */
    method ShouldLog(host: string, now: int) returns (log: bool)
      modifies this
      ensures log == !Recent(old(denied), Call(host, now))
      ensures denied == Next(old(denied), Call(host, now))
    {
      if host in denied && now - denied[host] < INTERVAL {
        return false;
      }
      if |denied| >= MAX_ENTRIES {
        var hosts := denied.Keys;
        while hosts != {}
          invariant hosts <= denied.Keys <= old(denied).Keys
          invariant forall h :: h in denied ==> denied[h] == old(denied)[h]
          invariant forall h :: h in old(denied) && h !in hosts ==> (h in denied <==> now - old(denied)[h] < INTERVAL)
          decreases hosts
        {
          var h :| h in hosts;
          hosts := hosts - {h};
          if now - denied[h] >= INTERVAL {
            denied := denied - {h};
          }
        }
        assert denied == Expire(old(denied), now);
      }
      denied := denied[host := now];
      log := true;
    }
  }
}
