/** The list of memory blobs to measure, kept in ascending order of guest address. */
module BlobList {
  import opened Bytes

  /** A blob as a value. */
  datatype Entry = Entry(start: nat, data: bytes)

  predicate Ascending(es: seq<Entry>) {
    forall i, j :: 0 <= i < j < |es| ==> es[i].start < es[j].start
  }

  /** Sorted insertion; an address that is taken changes nothing. */
  function Insert(es: seq<Entry>, e: Entry): (r: seq<Entry>) {
    if es == [] || e.start < es[0].start then [e] + es
    else if e.start == es[0].start then es
    else [es[0]] + Insert(es[1..], e)
  }

  predicate Taken(es: seq<Entry>, start: nat) {
    exists i :: 0 <= i < |es| && es[i].start == start
  }

  lemma TakenSplit(es: seq<Entry>, start: nat)
    requires es != []
    ensures Taken(es, start) <==> es[0].start == start || Taken(es[1..], start)
  {
    if Taken(es, start) && es[0].start != start {
      var i :| 0 <= i < |es| && es[i].start == start;
      assert es[1..][i - 1].start == start;
    }
    if Taken(es[1..], start) {
      var i :| 0 <= i < |es[1..]| && es[1..][i].start == start;
      assert es[i + 1].start == start;
    }
  }

  lemma {:induction false} InsertKeepsOrder(es: seq<Entry>, e: Entry)
    requires Ascending(es)
    ensures Ascending(Insert(es, e))
    ensures Taken(es, e.start) ==> Insert(es, e) == es
    ensures forall x :: x in Insert(es, e) <==> x in es || (x == e && !Taken(es, e.start))
  {
    if es != [] {
      TakenSplit(es, e.start);
      assert es == [es[0]] + es[1..];
      if e.start > es[0].start {
        InsertKeepsOrder(es[1..], e);
        assert forall x :: x in Insert(es[1..], e) ==> es[0].start < x.start;
      } else {
        assert e.start < es[0].start ==> !Taken(es[1..], e.start);
      }
    }
  }

  /** Where insertion at position k of an ascending list puts the entry. */
  lemma {:induction false} InsertAt(es: seq<Entry>, e: Entry, k: nat)
    requires k <= |es|
    requires forall i :: 0 <= i < k ==> es[i].start < e.start
    ensures k < |es| && es[k].start == e.start ==> Insert(es, e) == es
    ensures (k < |es| ==> e.start < es[k].start) ==> Insert(es, e) == es[..k] + [e] + es[k..]
  {
    if k > 0 {
      InsertAt(es[1..], e, k - 1);
      assert es == [es[0]] + es[1..];
      assert es[..k] == [es[0]] + es[1..][..k - 1] && es[1..][k - 1..] == es[k..];
      assert [es[0]] + (es[1..][..k - 1] + [e] + es[k..]) == es[..k] + [e] + es[k..];
    }
  }

  lemma InsertLast(es: seq<Entry>, e: Entry)
    requires forall i :: 0 <= i < |es| ==> es[i].start < e.start
    ensures Insert(es, e) == es + [e]
  {
    InsertAt(es, e, |es|);
    assert es[..|es|] + [e] + es[|es|..] == es + [e];
  }

  // ----- the order of insertion does not matter

  function InsertAll(es: seq<Entry>, xs: seq<Entry>): seq<Entry> {
    if xs == [] then es else Insert(InsertAll(es, xs[..|xs| - 1]), xs[|xs| - 1])
  }

  predicate DistinctStarts(xs: seq<Entry>) {
    forall i, j :: 0 <= i < j < |xs| ==> xs[i].start != xs[j].start
  }

  lemma {:induction false} InsertAllHolds(xs: seq<Entry>)
    requires DistinctStarts(xs)
    ensures Ascending(InsertAll([], xs))
    ensures forall x :: x in InsertAll([], xs) <==> x in xs
  {
    if xs != [] {
      var front, last := xs[..|xs| - 1], xs[|xs| - 1];
      assert xs == front + [last];
      InsertAllHolds(front);
      InsertKeepsOrder(InsertAll([], front), last);
      NotTaken(InsertAll([], front), front, last);
    }
  }

  lemma NotTaken(es: seq<Entry>, front: seq<Entry>, last: Entry)
    requires DistinctStarts(front + [last]) && forall x :: x in es <==> x in front
    ensures !Taken(es, last.start)
  {
    forall i | 0 <= i < |es| ensures es[i].start != last.start {
      assert es[i] in front;
      var j :| 0 <= j < |front| && front[j] == es[i];
      assert (front + [last])[j] == front[j] && (front + [last])[|front|] == last;
    }
  }

  lemma InRest(a: seq<Entry>, x: Entry)
    requires a != [] && Ascending(a)
    ensures x in a[1..] <==> x in a && x != a[0]
  {
    assert a == [a[0]] + a[1..];
  }

  lemma SomeElement(b: seq<Entry>)
    ensures b != [] ==> exists x :: x in b
  {
    if b != [] {
      assert b[0] in b;
    }
  }

  /** An ascending list is determined by its elements. */
  lemma {:induction false} AscendingUnique(a: seq<Entry>, b: seq<Entry>)
    requires Ascending(a) && Ascending(b)
    requires forall x :: x in a <==> x in b
    ensures a == b
  {
    if a == [] {
      SomeElement(b);
    } else {
      assert a[0] in b;
      assert b[0] in a;
      var i :| 0 <= i < |b| && b[i] == a[0];
      var j :| 0 <= j < |a| && a[j] == b[0];
      assert a[0] == b[0];
      assert a == [a[0]] + a[1..] && b == [b[0]] + b[1..];
      forall x ensures x in a[1..] <==> x in b[1..] {
        InRest(a, x);
        InRest(b, x);
      }
      AscendingUnique(a[1..], b[1..]);
    }
  }

  /** Adding the same blobs, at distinct addresses, in any order builds the same list. */
  lemma InsertionOrderIrrelevant(xs: seq<Entry>, ys: seq<Entry>)
    requires DistinctStarts(xs) && DistinctStarts(ys) && forall x :: x in xs <==> x in ys
    ensures InsertAll([], xs) == InsertAll([], ys)
  {
    InsertAllHolds(xs);
    InsertAllHolds(ys);
    AscendingUnique(InsertAll([], xs), InsertAll([], ys));
  }

  // ----- the linked list

  class Blob {
    const guestStart: nat
    const data: bytes
    var next: Blob?

    constructor (guestStart: nat, data: bytes)
      ensures this.guestStart == guestStart && this.data == data && next == null
    {
      this.guestStart, this.data, next := guestStart, data, null;
    }

    function AsEntry(): Entry {
      Entry(guestStart, data)
    }
  }

  ghost function EntriesOf(bs: seq<Blob>): (r: seq<Entry>)
    ensures |r| == |bs|
    ensures forall i :: 0 <= i < |bs| ==> r[i] == bs[i].AsEntry()
  {
    seq(|bs|, i requires 0 <= i < |bs| => bs[i].AsEntry())
  }

  ghost function Spliced(bs: seq<Blob>, k: nat, b: Blob): (r: seq<Blob>)
    requires k <= |bs|
    ensures |r| == |bs| + 1 && r[k] == b
    ensures forall i :: 0 <= i < k ==> r[i] == bs[i]
    ensures forall i :: k < i < |r| ==> r[i] == bs[i - 1]
  {
    bs[..k] + [b] + bs[k..]
  }

  lemma SplicedElements(bs: seq<Blob>, k: nat, b: Blob, x: Blob)
    requires k <= |bs| && x in Spliced(bs, k, b)
    ensures x in bs || x == b
  {
  }

  /** Each node points to the next, the last to null. */
  ghost predicate Linked(bs: seq<Blob>)
    reads bs
  {
    && (bs != [] ==> bs[|bs| - 1].next == null)
    && (forall i {:trigger bs[i].next} :: 0 <= i < |bs| - 1 ==> bs[i].next == bs[i + 1])
  }

  class List {
    var head: Blob?
    /** The nodes in order. */
    ghost var blobs: seq<Blob>

    constructor ()
      ensures Valid() && blobs == []
    {
      head, blobs := null, [];
    }

    ghost predicate Valid()
      reads this, blobs
    {
      Chained() && Ascending(EntriesOf(blobs))
    }

    ghost predicate Chained()
      reads this, blobs
    {
      head == (if blobs == [] then null else blobs[0]) && Linked(blobs)
    }

    ghost function Entries(): seq<Entry>
      reads this
    {
      EntriesOf(blobs)
    }

    /** free_rim_blobs; what becomes of the nodes is the allocator's business. */
    method Free()
      modifies this
      ensures Valid() && blobs == []
    {
      head, blobs := null, [];
    }

    /** The walk of add_rim_blob to the first blob at or above the address. The source walks with a
        pointer to the link it may overwrite: here `prev` owns that link, null standing for the head. */
    method Walk(guestStart: nat) returns (prev: Blob?, curr: Blob?, ghost k: nat)
      requires Valid()
      ensures k <= |blobs|
      ensures curr == if k < |blobs| then blobs[k] else null
      ensures prev == if k > 0 then blobs[k - 1] else null
      ensures forall i :: 0 <= i < k ==> blobs[i].guestStart < guestStart
      ensures k < |blobs| ==> guestStart <= blobs[k].guestStart
    {
      prev, curr, k := null, head, 0;
      while curr != null && curr.guestStart < guestStart
        invariant k <= |blobs|
        invariant curr == if k < |blobs| then blobs[k] else null
        invariant prev == if k > 0 then blobs[k - 1] else null
        invariant forall i :: 0 <= i < k ==> blobs[i].guestStart < guestStart
        decreases |blobs| - k
      {
        prev := curr;
        curr := curr.next;
        k := k + 1;
      }
    }

    /** Overwrites the link at position k so that the new node stands there. */
    method Splice(prev: Blob?, curr: Blob?, newBlob: Blob, ghost k: nat)
      requires Chained() && k <= |blobs| && newBlob !in blobs
      requires curr == if k < |blobs| then blobs[k] else null
      requires prev == if k > 0 then blobs[k - 1] else null
      requires forall i :: 0 <= i < |blobs| && i != k - 1 ==> blobs[i] != prev
      modifies this, blobs, newBlob
      ensures Chained() && blobs == Spliced(old(blobs), k, newBlob)
    {
      newBlob.next := curr;
      if prev == null {
        head := newBlob;
      } else {
        prev.next := newBlob;
      }
      blobs := Spliced(blobs, k, newBlob);
    }

    /** add_rim_blob */
    method AddRimBlob(guestStart: nat, data: bytes) returns (r: Blob?, ghost k: nat)
      requires Valid()
      modifies this, blobs
      ensures Valid() && Entries() == Insert(old(Entries()), Entry(guestStart, data))
      ensures r == null <==> Taken(old(Entries()), guestStart)
      ensures r == null ==> blobs == old(blobs)
      ensures r != null ==> k <= |old(blobs)| && blobs == Spliced(old(blobs), k, r)
      ensures r != null ==> fresh(r) && r.guestStart == guestStart && r.data == data
    {
      var newBlob := new Blob(guestStart, data);
      var prev, curr;
      prev, curr, k := Walk(guestStart);
      if curr != null && curr.guestStart == guestStart {
        Found(blobs, k, newBlob);
        return null, k;
      }
      Placed(blobs, k, newBlob);
      hide Spliced, EntriesOf, Ascending, Insert, Taken, Linked;
      Splice(prev, curr, newBlob, k);
      r := newBlob;
    }
  }

  lemma Found(nodes: seq<Blob>, k: nat, b: Blob)
    requires Ascending(EntriesOf(nodes)) && k < |nodes| && nodes[k].guestStart == b.guestStart
    ensures Taken(EntriesOf(nodes), b.guestStart) && Insert(EntriesOf(nodes), b.AsEntry()) == EntriesOf(nodes)
  {
    assert EntriesOf(nodes)[k].start == b.guestStart;
    InsertKeepsOrder(EntriesOf(nodes), b.AsEntry());
  }

  lemma Placed(nodes: seq<Blob>, k: nat, b: Blob)
    requires Ascending(EntriesOf(nodes)) && k <= |nodes|
    requires forall i :: 0 <= i < k ==> nodes[i].guestStart < b.guestStart
    requires k < |nodes| ==> b.guestStart < nodes[k].guestStart
    ensures EntriesOf(Spliced(nodes, k, b)) == Insert(EntriesOf(nodes), b.AsEntry())
    ensures Ascending(EntriesOf(Spliced(nodes, k, b))) && !Taken(EntriesOf(nodes), b.guestStart)
    ensures k > 0 ==> forall i :: 0 <= i < |nodes| && i != k - 1 ==> nodes[i] != nodes[k - 1]
  {
    var es, e := EntriesOf(nodes), b.AsEntry();
    StrictlyBetween(es, e.start, k);
    InsertAt(es, e, k);
    InsertKeepsOrder(es, e);
    EntriesInserted(nodes, k, b);
    OnlyPrevious(nodes, k);
  }

  lemma StrictlyBetween(es: seq<Entry>, start: nat, k: nat)
    requires Ascending(es) && k <= |es|
    requires forall i :: 0 <= i < k ==> es[i].start < start
    requires k < |es| ==> start < es[k].start
    ensures !Taken(es, start)
  {
  }

  lemma OnlyPrevious(nodes: seq<Blob>, k: nat)
    requires Ascending(EntriesOf(nodes)) && k <= |nodes|
    ensures k > 0 ==> forall i :: 0 <= i < |nodes| && i != k - 1 ==> nodes[i] != nodes[k - 1]
  {
    var es := EntriesOf(nodes);
    assert forall i :: 0 <= i < |nodes| ==> es[i].start == nodes[i].guestStart;
  }

  lemma EntriesInserted(nodes: seq<Blob>, k: nat, b: Blob)
    requires k <= |nodes|
    ensures EntriesOf(Spliced(nodes, k, b)) == EntriesOf(nodes)[..k] + [b.AsEntry()] + EntriesOf(nodes)[k..]
  {
  }
}
