/** The life of a pooled resource: the places it has been in, in order, and which moves are legal. */
module Lifecycle {

  datatype Place =
    | Unborn           // New has not returned it yet
    | Caller(t: nat)   // held by a Get in progress
    | Opener           // held by the goroutine that opens items ahead of need
    | Idle             // in the pool's idle collection
    | HandOff(ch: nat) // in the buffer of a request channel
    | Leased           // returned by a Get and not yet Put back
    | Sweeping         // taken out of the idle collection by the cleaner, not yet closed
    | Draining         // taken out of the idle collection by List's Close, not yet closed
    | Closed

  type History = map<nat, seq<Place>>

  function Where(h: History, id: nat): Place {
    if id in h && h[id] != [] then h[id][|h[id]| - 1] else Unborn
  }

  function Past(h: History, id: nat): seq<Place> {
    if id in h then h[id] else []
  }

  function Move(h: History, id: nat, p: Place): History {
    h[id := Past(h, id) + [p]]
  }

  function MoveAll(h: History, ids: set<nat>, p: Place): History {
    map id | id in h.Keys + ids :: if id in ids then Past(h, id) + [p] else h[id]
  }

  /** The only moves a resource may make. */
  predicate Edge(a: Place, b: Place) {
    match a
    case Unborn => b.Caller? || b.Opener?
    case Caller(_) => b.Leased? || b.Closed?
    case Opener => b.Idle? || b.HandOff? || b.Closed?
    case Idle => b.Caller? || b.Sweeping? || b.Draining? || b.Closed?
    case HandOff(_) => b.Caller?
    case Leased => b.Idle? || b.HandOff? || b.Closed?
    case Sweeping => b.Closed?
    case Draining => b.Closed?
    case Closed => false
  }

  ghost predicate LegalPath(p: seq<Place>) {
    && (p != [] ==> Edge(Unborn, p[0]))
    && forall i :: 0 <= i < |p| - 1 ==> Edge(p[i], p[i + 1])
  }

  ghost predicate Legal(h: History) {
    forall id | id in h :: LegalPath(h[id])
  }

  lemma MoveLegal(h: History, id: nat, p: Place)
    requires Legal(h) && Edge(Where(h, id), p)
    ensures Legal(Move(h, id, p)) && Where(Move(h, id, p), id) == p
    ensures forall j :: j != id ==> Where(Move(h, id, p), j) == Where(h, j)
  {
    assert LegalPath(Past(h, id) + [p]);
  }

  /** A resource that New made for a Get goes to the client at once. */
  lemma BirthLegal(h: History, id: nat, t: nat)
    requires Legal(h) && id !in h
    ensures var r := Move(Move(h, id, Caller(t)), id, Leased);
            && Legal(r)
            && (forall j :: Where(r, j) == if j == id then Leased else Where(h, j))
  {
    MoveLegal(h, id, Caller(t));
    MoveLegal(Move(h, id, Caller(t)), id, Leased);
  }

  lemma MoveAllLegal(h: History, ids: set<nat>, p: Place)
    requires Legal(h) && forall id | id in ids :: Edge(Where(h, id), p)
    ensures Legal(MoveAll(h, ids, p))
    ensures forall j :: Where(MoveAll(h, ids, p), j) == if j in ids then p else Where(h, j)
  {
    forall id | id in ids
      ensures LegalPath(Past(h, id) + [p])
    {
      assert Edge(Where(h, id), p);
    }
  }

  /** Every place but the last is one the resource left, so it is closed at most once, at the end. */
  lemma {:induction false} ClosedIsFinal(p: seq<Place>)
    requires LegalPath(p)
    ensures forall i :: 0 <= i < |p| - 1 ==> !p[i].Closed?
  {
    forall i | 0 <= i < |p| - 1
      ensures !p[i].Closed?
    {
      assert Edge(p[i], p[i + 1]);
    }
  }

  /** Between two leases of one resource it was put back: into the idle collection or a channel. */
  lemma {:induction false} PutBetweenLeases(p: seq<Place>, i: nat, j: nat)
    requires LegalPath(p) && i < j < |p| && p[i].Leased? && p[j].Leased?
    ensures i + 2 < j
    ensures p[i + 1].Idle? || p[i + 1].HandOff?
    ensures p[j - 1].Caller?
  {
    assert Edge(p[i], p[i + 1]);
    assert Edge(p[i + 1], p[i + 2]);
    assert Edge(p[j - 1], p[j]);
  }
}
