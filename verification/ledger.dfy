/** A bounded list of peers with scores (`Friend(MaxFriends)`): the admired
    (`reputable`), despised (`disreputable`) and friendship lists of an agent.
    Peers are population indices. Admission: a known peer has its score
    updated; a new peer enters while there is room; at full capacity a new
    peer replaces the lowest-scored entry only if it scores strictly more. */
module Ledger {
  import opened Wrappers
  import Num

  datatype Entry = Entry(peer: nat, score: real)
  datatype Ledger = Ledger(capacity: nat, entries: seq<Entry>)

  /** `names()`: the peers, in ledger order. */
  function Names(l: Ledger): (ns: seq<nat>)
    ensures |ns| == |l.entries|
    ensures forall k :: 0 <= k < |ns| ==> ns[k] == l.entries[k].peer
  {
    seq(|l.entries|, k requires 0 <= k < |l.entries| => l.entries[k].peer)
  }

  function Scores(l: Ledger): (ss: seq<real>)
    ensures |ss| == |l.entries|
    ensures forall k :: 0 <= k < |ss| ==> ss[k] == l.entries[k].score
  {
    seq(|l.entries|, k requires 0 <= k < |l.entries| => l.entries[k].score)
  }

  /** At most `capacity` entries, no peer listed twice. */
  predicate Valid(l: Ledger) {
    && |l.entries| <= l.capacity
    && forall a, b :: 0 <= a < b < |l.entries| ==> l.entries[a].peer != l.entries[b].peer
  }

  function Empty(capacity: nat): (l: Ledger)
    ensures Valid(l) && l.capacity == capacity && |l.entries| == 0
  {
    Ledger(capacity, [])
  }

  /** `detach()` / `forgetAll()`: the ledger is emptied. */
  function Detach(l: Ledger): (l': Ledger)
    ensures Valid(l') && l'.capacity == l.capacity && Names(l') == []
  {
    Empty(l.capacity)
  }

  /** Position of `peer` in the ledger, if listed. */
  function Find(es: seq<Entry>, peer: nat): (r: Option<nat>)
    ensures r.None? <==> forall k :: 0 <= k < |es| ==> es[k].peer != peer
    ensures r.Some? ==> r.value < |es| && es[r.value].peer == peer
  {
    if |es| == 0 then None
    else if es[|es| - 1].peer == peer then Some(|es| - 1)
    else Find(es[..|es| - 1], peer)
  }

  /** Whether `follow(peer, score)` changes the ledger. */
  predicate Admits(l: Ledger, peer: nat, score: real) {
    || peer in Names(l)
    || |l.entries| < l.capacity
    || (|l.entries| > 0 && score > l.entries[Num.ArgMin(Scores(l))].score)
  }

  /** `follow(peer, score)`. */
  function Follow(l: Ledger, peer: nat, score: real): (l': Ledger)
    requires Valid(l)
    ensures Valid(l') && l'.capacity == l.capacity
    ensures Admits(l, peer, score) ==> Entry(peer, score) in l'.entries
    ensures !Admits(l, peer, score) ==> l' == l
    ensures |l'.entries| >= |l.entries|
    ensures forall e :: e in l'.entries ==> e in l.entries || e == Entry(peer, score)
    // an entry of another peer is lost only at full capacity, and only if it was a lowest score
    ensures forall k :: 0 <= k < |l.entries| && l.entries[k].peer != peer && l.entries[k] !in l'.entries ==>
              |l.entries| == l.capacity && forall m :: 0 <= m < |l.entries| ==> l.entries[k].score <= l.entries[m].score
  {
    match Find(l.entries, peer)
    case Some(k) =>
      ReplaceAt(l, k, Entry(peer, score));
      Ledger(l.capacity, l.entries[k := Entry(peer, score)])
    case None =>
      assert peer !in Names(l);
      if |l.entries| < l.capacity then
        AppendNew(l, Entry(peer, score));
        Ledger(l.capacity, l.entries + [Entry(peer, score)])
      else if |l.entries| > 0 && score > l.entries[Num.ArgMin(Scores(l))].score then
        var k := Num.ArgMin(Scores(l));
        ReplaceAt(l, k, Entry(peer, score));
        assert forall m :: 0 <= m < |l.entries| ==> Scores(l)[k] <= Scores(l)[m];
        Ledger(l.capacity, l.entries[k := Entry(peer, score)])
      else l
  }

  /** Overwriting entry `k` with a peer listed nowhere else keeps the ledger
      valid and every other entry in place. */
  lemma ReplaceAt(l: Ledger, k: nat, e: Entry)
    requires Valid(l) && k < |l.entries|
    requires forall j :: 0 <= j < |l.entries| && j != k ==> l.entries[j].peer != e.peer
    ensures var es := l.entries[k := e];
            && Valid(Ledger(l.capacity, es))
            && e in es
            && (forall x :: x in es ==> x in l.entries || x == e)
            && (forall j :: 0 <= j < |l.entries| && j != k ==> l.entries[j] in es)
  {
    var es := l.entries[k := e];
    assert es[k] == e;
    forall j | 0 <= j < |l.entries| && j != k ensures l.entries[j] in es {
      assert es[j] == l.entries[j];
    }
  }

  /** Appending a peer not yet listed, below capacity, keeps the ledger valid. */
  lemma AppendNew(l: Ledger, e: Entry)
    requires Valid(l) && |l.entries| < l.capacity
    requires forall j :: 0 <= j < |l.entries| ==> l.entries[j].peer != e.peer
    ensures var es := l.entries + [e];
            && Valid(Ledger(l.capacity, es))
            && e in es
            && (forall x :: x in es ==> x in l.entries || x == e)
            && (forall j :: 0 <= j < |l.entries| ==> l.entries[j] in es)
  {
    var es := l.entries + [e];
    forall j | 0 <= j < |l.entries| ensures l.entries[j] in es {
      assert es[j] == l.entries[j];
    }
  }

  /** `best_friend()`: the peer with the highest score, if any. */
  function BestFriend(l: Ledger): (r: Option<nat>)
    ensures r.None? <==> |l.entries| == 0
    ensures r.Some? ==> exists k :: 0 <= k < |l.entries| && l.entries[k].peer == r.value &&
                          forall m :: 0 <= m < |l.entries| ==> l.entries[m].score <= l.entries[k].score
  {
    if |l.entries| == 0 then None
    else
      var k := Num.ArgMax(Scores(l));
      assert forall m :: 0 <= m < |l.entries| ==> Scores(l)[m] <= Scores(l)[k];
      Some(l.entries[k].peer)
  }

  /** The best friend is always a listed peer. */
  lemma BestFriendListed(l: Ledger)
    requires BestFriend(l).Some?
    ensures BestFriend(l).value in Names(l)
  {
    var k :| 0 <= k < |l.entries| && l.entries[k].peer == BestFriend(l).value;
    assert Names(l)[k] == l.entries[k].peer;
  }

  /** A full ledger ignores a newcomer that does not beat its lowest score. */
  lemma FullLedgerRejectsLowScore(l: Ledger, peer: nat, score: real)
    requires Valid(l) && |l.entries| == l.capacity
    requires peer !in Names(l)
    requires forall k :: 0 <= k < |l.entries| ==> score <= l.entries[k].score
    ensures Follow(l, peer, score) == l
  {
    if |l.entries| > 0 {
      var m := Num.ArgMin(Scores(l));
      assert score <= l.entries[m].score;
    }
  }

  /** Following a sequence of peers never overflows the ledger. */
  function FollowAll(l: Ledger, offers: seq<Entry>): (l': Ledger)
    requires Valid(l)
    ensures Valid(l') && l'.capacity == l.capacity
    ensures |l'.entries| <= l.capacity
    decreases |offers|
  {
    if |offers| == 0 then l
    else FollowAll(Follow(l, offers[0].peer, offers[0].score), offers[1..])
  }
}
