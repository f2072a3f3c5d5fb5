/**
 The two round-robin schedulers: one keeps a counter per client, the other drains until a pass
 makes no progress.  Both are proved against one interleaving, which is characterised without
 reference to either: every queued request once, ordered by position in its queue and then by
 client.
 */
module Schedulers {
  import opened Basics

  /** Request number `pos` of client number `client`. */
  datatype Token = Token(client: nat, pos: nat)

  predicate Earlier(a: Token, b: Token) {
    a.pos < b.pos || (a.pos == b.pos && a.client < b.client)
  }

  predicate IsRequest<T>(qs: seq<seq<T>>, t: Token) {
    t.client < |qs| && t.pos < |qs[t.client]|
  }

  /** The requests before round `pos`, client `i`, in dispatch order. */
  function UpTo<T>(qs: seq<seq<T>>, pos: nat, i: nat): (r: seq<Token>)
    requires i <= |qs|
    ensures forall k :: 0 <= k < |r| ==> IsRequest(qs, r[k])
    decreases pos, i
  {
    if i > 0 then
      UpTo(qs, pos, i - 1) + (if pos < |qs[i - 1]| then [Token(i - 1, pos)] else [])
    else if pos > 0 then
      UpTo(qs, pos - 1, |qs|)
    else
      []
  }

  function Longest<T>(qs: seq<seq<T>>): (n: nat)
    ensures forall c :: 0 <= c < |qs| ==> |qs[c]| <= n
  {
    if qs == [] then 0
    else
      var m := Longest(qs[1..]);
      assert forall c :: 1 <= c < |qs| ==> qs[c] == qs[1..][c - 1];
      if |qs[0]| > m then |qs[0]| else m
  }

  /** The whole interleaving. */
  function Schedule<T>(qs: seq<seq<T>>): (r: seq<Token>)
    ensures forall k :: 0 <= k < |r| ==> IsRequest(qs, r[k])
  {
    UpTo(qs, Longest(qs), 0)
  }

  function Items<T>(qs: seq<seq<T>>, ts: seq<Token>): (r: seq<(nat, T)>)
    requires forall k :: 0 <= k < |ts| ==> IsRequest(qs, ts[k])
    ensures |r| == |ts|
  {
    seq(|ts|, k requires 0 <= k < |ts| => assert IsRequest(qs, ts[k]); (ts[k].client, qs[ts[k].client][ts[k].pos]))
  }

  // ------------------------------------------------- what the interleaving is --

  lemma {:induction false} UpToMembers<T>(qs: seq<seq<T>>, pos: nat, i: nat, t: Token)
    requires i <= |qs|
    ensures t in UpTo(qs, pos, i) <==> IsRequest(qs, t) && Earlier(t, Token(i, pos))
    decreases pos, i
  {
    if i > 0 {
      UpToMembers(qs, pos, i - 1, t);
    } else if pos > 0 {
      UpToMembers(qs, pos - 1, |qs|, t);
    }
  }

  ghost predicate InOrder(s: seq<Token>) {
    forall a, b :: 0 <= a < b < |s| ==> Earlier(s[a], s[b])
  }

  lemma {:induction false} UpToInOrder<T>(qs: seq<seq<T>>, pos: nat, i: nat)
    requires i <= |qs|
    ensures InOrder(UpTo(qs, pos, i))
    decreases pos, i
  {
    if i > 0 {
      UpToInOrder(qs, pos, i - 1);
      var s := UpTo(qs, pos, i - 1);
      forall a | 0 <= a < |s| ensures Earlier(s[a], Token(i - 1, pos)) {
        assert s[a] in s;
        UpToMembers(qs, pos, i - 1, s[a]);
      }
    } else if pos > 0 {
      UpToInOrder(qs, pos - 1, |qs|);
    }
  }

  /** An order that dispatches every request once, by position and then by client. */
  ghost predicate IsInterleaving<T>(qs: seq<seq<T>>, s: seq<Token>) {
    InOrder(s) && forall t :: t in s <==> IsRequest(qs, t)
  }

  lemma ScheduleIsInterleaving<T>(qs: seq<seq<T>>)
    ensures IsInterleaving(qs, Schedule(qs))
  {
    UpToInOrder(qs, Longest(qs), 0);
    forall t ensures t in Schedule(qs) <==> IsRequest(qs, t) {
      UpToMembers(qs, Longest(qs), 0, t);
    }
  }

  /** There is only one such order. */
  lemma {:induction false} InterleavingUnique(s: seq<Token>, t: seq<Token>)
    requires InOrder(s) && InOrder(t) && forall x :: x in s <==> x in t
    ensures s == t
    decreases |s|
  {
    if s == [] {
      EmptyIffNoElements(t);
    } else {
      assert s[0] in t;
      var k :| 0 <= k < |t| && t[k] == s[0];
      assert t[0] in s;
      var j :| 0 <= j < |s| && s[j] == t[0];
      assert s[0] == t[0];
      forall x ensures x in s[1..] <==> x in t[1..] {
        SameTail(s, x);
        SameTail(t, x);
      }
      InterleavingUnique(s[1..], t[1..]);
    }
  }

  lemma SameTail(s: seq<Token>, x: Token)
    requires InOrder(s) && s != []
    ensures x in s[1..] <==> x in s && x != s[0]
  {
    if x in s[1..] {
      var k :| 0 <= k < |s[1..]| && s[1..][k] == x;
      assert s[k + 1] == x;
    }
    if x in s && x != s[0] {
      var k :| 0 <= k < |s| && s[k] == x;
      assert s[1..][k - 1] == x;
    }
  }

  // --------------------------------------------------------- FIFO and fairness --

  /** How many requests of client `c` come before round `pos`, client `i`. */
  function Served<T>(qs: seq<seq<T>>, pos: nat, i: nat, c: nat): (n: nat)
    requires c < |qs|
    ensures n <= |qs[c]|
  {
    var n := if c < i then pos + 1 else pos;
    if n < |qs[c]| then n else |qs[c]|
  }

  /** The requests of client `c` in a dispatch log, in log order. */
  function Of<T>(log: seq<(nat, T)>, c: nat): seq<T> {
    if log == [] then []
    else
      var last := log[|log| - 1];
      Of(log[..|log| - 1], c) + (if last.0 == c then [last.1] else [])
  }

  /** Each client's requests leave its queue first in, first out. */
  lemma {:induction false} FifoPerClient<T>(qs: seq<seq<T>>, pos: nat, i: nat, c: nat)
    requires i <= |qs| && c < |qs|
    ensures Of(Items(qs, UpTo(qs, pos, i)), c) == qs[c][..Served(qs, pos, i, c)]
    decreases pos, i
  {
    if i > 0 {
      FifoPerClient(qs, pos, i - 1, c);
      FifoStep(qs, pos, i - 1, c, Items(qs, UpTo(qs, pos, i - 1)));
      ItemsSnoc(qs, pos, i - 1);
    } else if pos > 0 {
      FifoPerClient(qs, pos - 1, |qs|, c);
      assert UpTo(qs, pos, 0) == UpTo(qs, pos - 1, |qs|);
      assert Served(qs, pos, 0, c) == Served(qs, pos - 1, |qs|, c);
    }
  }

  lemma FifoStep<T>(qs: seq<seq<T>>, pos: nat, i: nat, c: nat, log: seq<(nat, T)>)
    requires i < |qs| && c < |qs| && Of(log, c) == qs[c][..Served(qs, pos, i, c)]
    ensures Of(log + (if pos < |qs[i]| then [(i, qs[i][pos])] else []), c) == qs[c][..Served(qs, pos, i + 1, c)]
  {
    if pos < |qs[i]| {
      OfSnoc(log, (i, qs[i][pos]), c);
    } else {
      assert log + [] == log;
    }
  }

  lemma OfSnoc<T>(log: seq<(nat, T)>, x: (nat, T), c: nat)
    ensures Of(log + [x], c) == Of(log, c) + (if x.0 == c then [x.1] else [])
  {
    assert (log + [x])[..|log|] == log;
  }

  /** Every prefix of the interleaving is what comes before its next request. */
  lemma {:induction false} PrefixIsUpTo<T>(qs: seq<seq<T>>, pos: nat, i: nat, k: nat)
    requires i <= |qs| && k < |UpTo(qs, pos, i)|
    ensures var t := UpTo(qs, pos, i)[k]; t.client < |qs| && UpTo(qs, pos, i)[..k] == UpTo(qs, t.pos, t.client)
    decreases pos, i
  {
    if i > 0 {
      var s := UpTo(qs, pos, i - 1);
      if k < |s| {
        PrefixIsUpTo(qs, pos, i - 1, k);
        assert UpTo(qs, pos, i)[..k] == s[..k];
      } else {
        assert UpTo(qs, pos, i)[..k] == s;
      }
    } else if pos > 0 {
      PrefixIsUpTo(qs, pos - 1, |qs|, k);
    }
  }

  /** Fairness: after any number of dispatches, two clients that both still have work have been
      served equally often, give or take one. */
  lemma Fair<T>(qs: seq<seq<T>>, k: nat, c: nat, d: nat)
    requires k < |Schedule(qs)| && c < |qs| && d < |qs|
    ensures var log := Items(qs, Schedule(qs)[..k]);
            |Of(log, c)| < |qs[c]| && |Of(log, d)| < |qs[d]| ==> -1 <= |Of(log, c)| - |Of(log, d)| <= 1
  {
    var t := Schedule(qs)[k];
    PrefixIsUpTo(qs, Longest(qs), 0, k);
    FifoPerClient(qs, t.pos, t.client, c);
    FifoPerClient(qs, t.pos, t.client, d);
  }

  // --------------------------------------------------------------- the loops --

  /** What is left in the queues at round `pos`, client `i`. */
  function Left<T>(qs: seq<seq<T>>, pos: nat, i: nat): (r: seq<seq<T>>)
    ensures |r| == |qs|
  {
    seq(|qs|, c requires 0 <= c < |qs| => qs[c][Served(qs, pos, i, c)..])
  }

  /** Nothing lost: log, the request whose dispatch threw, and the queues make up the input. */
  lemma Conserved<T>(qs: seq<seq<T>>, pos: nat, i: nat, c: nat)
    requires i < |qs| && c < |qs| && pos < |qs[i]|
    ensures Of(Items(qs, UpTo(qs, pos, i)), c) + (if c == i then [qs[i][pos]] else []) + Left(qs, pos, i + 1)[c] == qs[c]
  {
    FifoPerClient(qs, pos, i, c);
  }

  lemma Saturated<T>(qs: seq<seq<T>>, pos: nat, i: nat)
    requires i <= |qs| && forall c :: 0 <= c < |qs| ==> |qs[c]| <= pos
    ensures UpTo(qs, pos, i) == Schedule(qs)
  {
    ScheduleIsInterleaving(qs);
    UpToInOrder(qs, pos, i);
    forall t ensures t in UpTo(qs, pos, i) <==> t in Schedule(qs) {
      UpToMembers(qs, pos, i, t);
    }
    InterleavingUnique(UpTo(qs, pos, i), Schedule(qs));
  }

  /** Whether a dispatch succeeds rather than throws: this may depend on everything dispatched
      before it in the same call, on the client and on the request. */
  type Dispatch<!T(!new)> = (seq<(nat, T)>, nat, T) -> bool

  /** A run that stopped at request `pos` of client `i` because its dispatch threw: everything
      before it was dispatched, it is gone from its queue, and everything after it is queued. */
  ghost predicate StoppedAt<T(!new)>(qs: seq<seq<T>>, accept: Dispatch<T>, log: seq<(nat, T)>, queues: seq<seq<T>>, pos: nat, i: nat) {
    && i < |qs| && pos < |qs[i]| && !accept(log, i, qs[i][pos])
    && log == Items(qs, UpTo(qs, pos, i))
    && queues == Left(qs, pos, i + 1)
  }

  ghost predicate AllAccepted<T(!new)>(log: seq<(nat, T)>, accept: Dispatch<T>) {
    forall k :: 0 <= k < |log| ==> accept(log[..k], log[k].0, log[k].1)
  }

  lemma AcceptedSnoc<T(!new)>(log: seq<(nat, T)>, accept: Dispatch<T>, i: nat, request: T)
    requires AllAccepted(log, accept) && accept(log, i, request)
    ensures AllAccepted(log + [(i, request)], accept)
  {
    var log' := log + [(i, request)];
    forall k | 0 <= k < |log'| ensures accept(log'[..k], log'[k].0, log'[k].1) {
      assert log'[..k] == log[..k];
      assert log[..|log|] == log;
    }
  }

  ghost predicate Outcome<T(!new)>(qs: seq<seq<T>>, accept: Dispatch<T>, log: seq<(nat, T)>, thrown: Option<(nat, T)>, queues: seq<seq<T>>) {
    && AllAccepted(log, accept)
    && (thrown.None? ==> log == Items(qs, Schedule(qs)) && forall c :: 0 <= c < |queues| ==> queues[c] == [])
    && (thrown.Some? ==> exists pos: nat, i: nat :: StoppedAt(qs, accept, log, queues, pos, i) && thrown.value == (i, qs[i][pos]))
  }

  /** What one pass over the clients, started at round `pos`, has done. */
  ghost predicate PassOutcome<T(!new)>(qs: seq<seq<T>>, accept: Dispatch<T>, pos: nat, log: seq<(nat, T)>,
                                       thrown: Option<(nat, T)>, progress: bool, queues: seq<seq<T>>)
  {
    && AllAccepted(log, accept) && |queues| == |qs|
    && (thrown.Some? ==> exists i: nat :: StoppedAt(qs, accept, log, queues, pos, i) && thrown.value == (i, qs[i][pos]))
    && (thrown.None? ==>
          && log == Items(qs, UpTo(qs, pos, |qs|)) && queues == Left(qs, pos, |qs|)
          && (progress ==> pos < Longest(qs))
          && (!progress ==> forall c :: 0 <= c < |qs| ==> |qs[c]| <= pos))
  }

  lemma LeftEmpty<T>(qs: seq<seq<T>>, pos: nat)
    requires forall c :: 0 <= c < |qs| ==> |qs[c]| <= pos
    ensures forall c :: 0 <= c < |qs| ==> Left(qs, pos, 0)[c] == []
  {
  }

  lemma ItemsSnoc<T>(qs: seq<seq<T>>, pos: nat, i: nat)
    requires i < |qs|
    ensures Items(qs, UpTo(qs, pos, i + 1)) ==
            Items(qs, UpTo(qs, pos, i)) + (if pos < |qs[i]| then [(i, qs[i][pos])] else [])
  {
  }

  lemma LeftPop<T>(qs: seq<seq<T>>, pos: nat, i: nat)
    requires i < |qs|
    ensures pos < |qs[i]| ==>
              && Left(qs, pos, i)[i] != [] && Left(qs, pos, i)[i][0] == qs[i][pos]
              && Left(qs, pos, i)[i := Left(qs, pos, i)[i][1..]] == Left(qs, pos, i + 1)
    ensures pos >= |qs[i]| ==> Left(qs, pos, i)[i] == [] && Left(qs, pos, i) == Left(qs, pos, i + 1)
  {
  }

  lemma NextRound<T>(qs: seq<seq<T>>, pos: nat)
    ensures UpTo(qs, pos + 1, 0) == UpTo(qs, pos, |qs|) && Left(qs, pos + 1, 0) == Left(qs, pos, |qs|)
  {
  }

  /** The drain-until-no-progress scheduler of the Stream runtime. */
  class StreamScheduler<T(!new)> {
    var queues: seq<seq<T>>

    constructor ()
      ensures queues == []
    {
      queues := [];
    }

    method AddStream() returns (index: nat)
      modifies this
      ensures index == |old(queues)| && queues == old(queues) + [[]]
    {
      queues := queues + [[]];
      index := |queues| - 1;
    }

    /** An unknown stream index is an error and changes nothing. */
    method Enqueue(index: nat, request: T) returns (ok: bool)
      modifies this
      ensures ok == (index < |old(queues)|)
      ensures queues == if ok then old(queues)[index := old(queues)[index] + [request]] else old(queues)
    {
      if index >= |queues| {
        return false;
      }
      queues := queues[index := queues[index] + [request]];
      return true;
    }

    /** One pass: at most one request of every stream, in registration order. */
    method Pass(accept: Dispatch<T>, ghost qs: seq<seq<T>>, ghost pos: nat, before: seq<(nat, T)>)
      returns (log: seq<(nat, T)>, thrown: Option<(nat, T)>, progressed: bool)
      requires queues == Left(qs, pos, 0) && before == Items(qs, UpTo(qs, pos, 0)) && AllAccepted(before, accept)
      modifies this
      ensures PassOutcome(qs, accept, pos, log, thrown, progressed, queues)
    {
      log, thrown, progressed := before, None, false;
      for i := 0 to |queues|
        invariant |queues| == |qs| && queues == Left(qs, pos, i) && thrown.None?
        invariant log == Items(qs, UpTo(qs, pos, i)) && AllAccepted(log, accept)
        invariant !progressed ==> forall c :: 0 <= c < i ==> |qs[c]| <= pos
        invariant progressed ==> pos < Longest(qs)
      {
        ItemsSnoc(qs, pos, i);
        LeftPop(qs, pos, i);
        if queues[i] != [] {
          var request := queues[i][0];
          queues := queues[i := queues[i][1..]];
          if !accept(log, i, request) {
            thrown := Some((i, request));
            assert StoppedAt(qs, accept, log, queues, pos, i);
            return;
          }
          AcceptedSnoc(log, accept, i, request);
          log := log + [(i, request)];
          progressed := true;
        }
      }
    }

    method Run(accept: Dispatch<T>) returns (log: seq<(nat, T)>, thrown: Option<(nat, T)>)
      modifies this
      ensures Outcome(old(queues), accept, log, thrown, queues) && |queues| == |old(queues)|
    {
      log, thrown := [], None;
      ghost var qs := queues;
      ghost var pos := 0;
      var progressed := true;
      assert Left(qs, 0, 0) == qs;
      while progressed
        invariant queues == Left(qs, pos, 0) && log == Items(qs, UpTo(qs, pos, 0)) && AllAccepted(log, accept)
        invariant !progressed ==> forall c :: 0 <= c < |qs| ==> |qs[c]| <= pos
        invariant thrown.None?
        decreases progressed, Longest(qs) - pos
      {
        log, thrown, progressed := Pass(accept, qs, pos, log);
        if thrown.Some? {
          return;
        }
        NextRound(qs, pos);
        pos := pos + 1;
      }
      Saturated(qs, pos, 0);
      LeftEmpty(qs, pos);
    }
  }

  /** The snapshot-counter scheduler. */
  class Scheduler<T(!new)> {
    var pending: seq<seq<T>>

    constructor ()
      ensures pending == []
    {
      pending := [];
    }

    method AddContext() returns (id: nat)
      modifies this
      ensures id == |old(pending)| && pending == old(pending) + [[]]
    {
      pending := pending + [[]];
      id := |pending| - 1;
    }

    method EnqueueCopy(id: nat, request: T) returns (ok: bool)
      modifies this
      ensures ok == (id < |old(pending)|)
      ensures pending == if ok then old(pending)[id := old(pending)[id] + [request]] else old(pending)
    {
      if id >= |pending| {
        return false;
      }
      pending := pending[id := pending[id] + [request]];
      return true;
    }

    method HasPending() returns (r: bool)
      ensures r <==> exists c :: 0 <= c < |pending| && pending[c] != []
    {
      for i := 0 to |pending|
        invariant forall c :: 0 <= c < i ==> pending[c] == []
      {
        if pending[i] != [] {
          return true;
        }
      }
      return false;
    }

    /** One pass: at most one request of every context whose snapshot is not used up. */
    method Pass(accept: Dispatch<T>, remaining: array<nat>, ghost qs: seq<seq<T>>, ghost pos: nat, before: seq<(nat, T)>)
      returns (log: seq<(nat, T)>, thrown: Option<(nat, T)>, progress: bool)
      requires pending == Left(qs, pos, 0) && before == Items(qs, UpTo(qs, pos, 0)) && AllAccepted(before, accept)
      requires remaining.Length == |qs| && forall c :: 0 <= c < |qs| ==> remaining[c] == |pending[c]|
      modifies this, remaining
      ensures PassOutcome(qs, accept, pos, log, thrown, progress, pending)
      ensures thrown.None? ==> forall c :: 0 <= c < |qs| ==> remaining[c] == |pending[c]|
    {
      log, thrown, progress := before, None, false;
      for i := 0 to |pending|
        invariant |pending| == |qs| && pending == Left(qs, pos, i) && thrown.None?
        invariant log == Items(qs, UpTo(qs, pos, i)) && AllAccepted(log, accept)
        invariant forall c :: 0 <= c < |qs| ==> remaining[c] == |pending[c]|
        invariant !progress ==> forall c :: 0 <= c < i ==> |qs[c]| <= pos
        invariant progress ==> pos < Longest(qs)
      {
        ItemsSnoc(qs, pos, i);
        LeftPop(qs, pos, i);
        if remaining[i] != 0 {
          var request := pending[i][0];
          pending := pending[i := pending[i][1..]];
          remaining[i] := remaining[i] - 1;
          progress := true;
          if !accept(log, i, request) {
            thrown := Some((i, request));
            assert StoppedAt(qs, accept, log, pending, pos, i);
            return;
          }
          AcceptedSnoc(log, accept, i, request);
          log := log + [(i, request)];
        }
      }
    }

    method RunRound(accept: Dispatch<T>) returns (log: seq<(nat, T)>, thrown: Option<(nat, T)>)
      modifies this
      ensures Outcome(old(pending), accept, log, thrown, pending) && |pending| == |old(pending)|
    {
      log, thrown := [], None;
      ghost var qs := pending;
      ghost var pos := 0;
      var remaining := new nat[|pending|](c requires 0 <= c < |pending| reads this => |pending[c]|);
      var progress := true;
      assert Left(qs, 0, 0) == qs;
      while progress
        invariant pending == Left(qs, pos, 0) && log == Items(qs, UpTo(qs, pos, 0)) && AllAccepted(log, accept)
        invariant remaining.Length == |qs| && forall c :: 0 <= c < |qs| ==> remaining[c] == |pending[c]|
        invariant !progress ==> forall c :: 0 <= c < |qs| ==> |qs[c]| <= pos
        invariant thrown.None?
        decreases progress, Longest(qs) - pos
      {
        log, thrown, progress := Pass(accept, remaining, qs, pos, log);
        if thrown.Some? {
          return;
        }
        NextRound(qs, pos);
        pos := pos + 1;
      }
      Saturated(qs, pos, 0);
      LeftEmpty(qs, pos);
    }
  }

  /** The request is accepted when its turn comes. */
  predicate IsAccepted<T(!new)>(qs: seq<seq<T>>, accept: Dispatch<T>, t: Token) {
    IsRequest(qs, t) ==> accept(Items(qs, UpTo(qs, t.pos, t.client)), t.client, qs[t.client][t.pos])
  }

  lemma {:induction false} AcceptedInLog<T(!new)>(qs: seq<seq<T>>, accept: Dispatch<T>, pos: nat, i: nat, t: Token)
    requires i <= |qs| && AllAccepted(Items(qs, UpTo(qs, pos, i)), accept) && t in UpTo(qs, pos, i)
    ensures IsAccepted(qs, accept, t)
  {
    var ts := UpTo(qs, pos, i);
    var log := Items(qs, ts);
    var k :| 0 <= k < |ts| && ts[k] == t;
    PrefixIsUpTo(qs, pos, i, k);
    assert log[..k] == Items(qs, ts[..k]);
    assert accept(log[..k], log[k].0, log[k].1);
  }

  /** A run stops at the first request of the interleaving that is not accepted. */
  lemma StopsAtFirst<T(!new)>(qs: seq<seq<T>>, accept: Dispatch<T>, log: seq<(nat, T)>, pos: nat, i: nat, t: Token)
    requires i <= |qs| && log == Items(qs, UpTo(qs, pos, i)) && AllAccepted(log, accept)
    requires IsRequest(qs, t) && !IsAccepted(qs, accept, t)
    ensures !Earlier(t, Token(i, pos))
  {
    UpToMembers(qs, pos, i, t);
    if t in UpTo(qs, pos, i) { AcceptedInLog(qs, accept, pos, i, t); }
  }

  /** Both schedulers refine the one interleaving: on the same queues, with the same dispatches
      throwing, they dispatch the same requests in the same order and leave the same queues. */
  lemma SchedulersAgree<T(!new)>(qs: seq<seq<T>>, accept: Dispatch<T>,
                                 log: seq<(nat, T)>, thrown: Option<(nat, T)>, queues: seq<seq<T>>,
                                 log': seq<(nat, T)>, thrown': Option<(nat, T)>, queues': seq<seq<T>>)
    requires Outcome(qs, accept, log, thrown, queues) && Outcome(qs, accept, log', thrown', queues')
    requires |queues| == |queues'| == |qs|
    ensures log == log' && thrown == thrown' && queues == queues'
  {
    var n := Longest(qs);
    if thrown.Some? {
      var pos: nat, i: nat :| StoppedAt(qs, accept, log, queues, pos, i) && thrown.value == (i, qs[i][pos]);
      if thrown'.Some? {
        var pos': nat, i': nat :| StoppedAt(qs, accept, log', queues', pos', i') && thrown'.value == (i', qs[i'][pos']);
        StopsAtFirst(qs, accept, log, pos, i, Token(i', pos'));
        StopsAtFirst(qs, accept, log', pos', i', Token(i, pos));
      } else {
        StopsAtFirst(qs, accept, log', n, 0, Token(i, pos));
      }
    } else if thrown'.Some? {
      var pos': nat, i': nat :| StoppedAt(qs, accept, log', queues', pos', i') && thrown'.value == (i', qs[i'][pos']);
      StopsAtFirst(qs, accept, log, n, 0, Token(i', pos'));
    }
  }

  ghost predicate NothingLost<T>(qs: seq<seq<T>>, log: seq<(nat, T)>, queues: seq<seq<T>>)
    requires |queues| == |qs|
  {
    forall c :: 0 <= c < |qs| ==> Of(log, c) + queues[c] == qs[c]
  }

  lemma DrainedLosesNothing<T>(qs: seq<seq<T>>, queues: seq<seq<T>>)
    requires |queues| == |qs| && forall c :: 0 <= c < |queues| ==> queues[c] == []
    ensures NothingLost(qs, Items(qs, Schedule(qs)), queues)
  {
    var log := Items(qs, Schedule(qs));
    forall c | 0 <= c < |qs| ensures Of(log, c) + queues[c] == qs[c] {
      FifoPerClient(qs, Longest(qs), 0, c);
      assert qs[c][..|qs[c]|] + [] == qs[c];
    }
  }

  lemma StoppedLosesOne<T>(qs: seq<seq<T>>, pos: nat, i: nat)
    requires i < |qs| && pos < |qs[i]|
    ensures !NothingLost(qs, Items(qs, UpTo(qs, pos, i)), Left(qs, pos, i + 1))
  {
    FifoPerClient(qs, pos, i, i);
    assert |Of(Items(qs, UpTo(qs, pos, i)), i) + Left(qs, pos, i + 1)[i]| == |qs[i]| - 1;
  }

  lemma DrainedAcceptedAll<T(!new)>(qs: seq<seq<T>>, accept: Dispatch<T>, t: Token)
    requires AllAccepted(Items(qs, Schedule(qs)), accept)
    ensures IsAccepted(qs, accept, t)
  {
    ScheduleIsInterleaving(qs);
    if IsRequest(qs, t) { AcceptedInLog(qs, accept, Longest(qs), 0, t); }
  }

  /** Every request is afterwards either dispatched or still queued exactly when no dispatch
      throws: the request whose dispatch throws has already left its queue. */
  lemma NothingLostIff<T(!new)>(qs: seq<seq<T>>, accept: Dispatch<T>,
                                log: seq<(nat, T)>, thrown: Option<(nat, T)>, queues: seq<seq<T>>)
    requires Outcome(qs, accept, log, thrown, queues) && |queues| == |qs|
    ensures NothingLost(qs, log, queues) <==> forall t :: IsAccepted(qs, accept, t)
  {
    if thrown.Some? {
      var pos: nat, i: nat :| StoppedAt(qs, accept, log, queues, pos, i) && thrown.value == (i, qs[i][pos]);
      StoppedLosesOne(qs, pos, i);
      assert !IsAccepted(qs, accept, Token(i, pos));
    } else {
      DrainedLosesNothing(qs, queues);
      forall t ensures IsAccepted(qs, accept, t) { DrainedAcceptedAll(qs, accept, t); }
    }
  }

  /** The smallest case in which a request is lost: one client, one request, and its dispatch
      throws. */
  lemma LostRequest(accept: Dispatch<int>, log: seq<(nat, int)>, thrown: Option<(nat, int)>, queues: seq<seq<int>>)
    requires !accept([], 0, 7) && Outcome([[7]], accept, log, thrown, queues) && |queues| == 1
    ensures !NothingLost([[7]], log, queues)
  {
    NothingLostIff([[7]], accept, log, thrown, queues);
    assert !IsAccepted([[7]], accept, Token(0, 0));
  }
}
