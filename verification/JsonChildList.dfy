/** cJSON items on the heap: the doubly linked child list whose head's prev is the tail, the
    operations that rewire it, and deep duplication. */
module JsonChildList {
  import opened Bytes
  import opened JsonTree

  /** What an item carries besides its links: type, valuestring, number and name. */
  datatype Data = Data(kind: int, text: cstring, number: real, name: Option<cstring>)

  ghost predicate Injective<T>(s: seq<T>) {
    forall i, j :: 0 <= i < j < |s| ==> s[i] != s[j]
  }

  ghost function IndexOf<T>(s: seq<T>, x: T): (i: nat)
    requires x in s
    ensures i < |s| && s[i] == x
  {
    if s[0] == x then 0 else 1 + IndexOf(s[1..], x)
  }

  ghost function Without<T>(s: seq<T>, i: nat): (r: seq<T>)
    requires i < |s|
    ensures |r| == |s| - 1
    ensures forall j :: 0 <= j < i ==> r[j] == s[j]
    ensures forall j :: i <= j < |r| ==> r[j] == s[j + 1]
  {
    s[..i] + s[i + 1..]
  }

  ghost function Inserted<T>(s: seq<T>, i: nat, x: T): (r: seq<T>)
    ensures i >= |s| ==> r == s + [x]
    ensures i < |s| ==> r == s[..i] + [x] + s[i..]
  {
    if i < |s| then s[..i] + [x] + s[i..] else s + [x]
  }

  /** The elements whose links an operation at i touches occur nowhere else. */
  lemma UniqueAround<T>(s: seq<T>, i: nat)
    requires i < |s| && Injective(s)
    ensures forall j :: 0 <= j < |s| && j != i ==> s[j] != s[i]
    ensures i > 0 ==> forall j :: 0 <= j < |s| && j != i - 1 ==> s[j] != s[i - 1]
    ensures i + 1 < |s| ==> forall j :: 0 <= j < |s| && j != i + 1 ==> s[j] != s[i + 1]
    ensures forall j :: 1 <= j < |s| ==> s[j] != s[0]
    ensures forall j :: 0 <= j < |s| - 1 ==> s[j] != s[|s| - 1]
  {
  }

  lemma InjectiveWithout<T>(s: seq<T>, i: nat)
    requires i < |s| && Injective(s)
    ensures Injective(Without(s, i)) && s[i] !in Without(s, i)
  {
  }

  lemma InjectiveInserted<T>(s: seq<T>, i: nat, x: T)
    requires Injective(s) && x !in s
    ensures Injective(Inserted(s, i, x))
  {
  }

  lemma InjectiveReplaced<T>(s: seq<T>, i: nat, x: T)
    requires Injective(s) && x !in s && i < |s|
    ensures Injective(s[i := x])
  {
  }

  /** The shape of an item and what is below it. */
  datatype Tree = Tree(data: Data, kids: seq<Tree>)

  /** How deep the items below the root lie. */
  function Levels(t: Tree): nat
    decreases t
  {
    LevelsOf(t.kids)
  }

  function LevelsOf(kids: seq<Tree>): nat
    decreases kids
  {
    if kids == [] then 0 else Max(1 + Levels(kids[0]), LevelsOf(kids[1..]))
  }

  lemma LevelsOfCons(t: Tree, rest: seq<Tree>)
    ensures LevelsOf([t] + rest) == Max(1 + Levels(t), LevelsOf(rest))
  {
    hide Levels;
    assert ([t] + rest)[0] == t && ([t] + rest)[1..] == rest;
  }

  /** The levels of the first n kids. */
  lemma {:induction false} LevelsOfPrefix(kids: seq<Tree>, n: nat)
    requires n < |kids|
    ensures LevelsOf(kids[..n + 1]) == Max(LevelsOf(kids[..n]), 1 + Levels(kids[n]))
    ensures LevelsOf(kids[..n + 1]) <= LevelsOf(kids)
  {
    LevelsOfNone();
    hide Levels, LevelsOf;
    LevelsOfCons(kids[0], kids[1..]);
    LevelsOfCons(kids[0], kids[1..][..n]);
    assert kids == [kids[0]] + kids[1..] && kids[..n + 1] == [kids[0]] + kids[1..][..n];
    if n == 0 {
      assert kids[1..][..0] == [] && kids[..0] == [];
    } else {
      LevelsOfPrefix(kids[1..], n - 1);
      LevelsOfCons(kids[0], kids[1..][..n - 1]);
      assert kids[..n] == [kids[0]] + kids[1..][..n - 1];
    }
  }

  lemma LevelsOfNone()
    ensures LevelsOf([]) == 0
  {
  }

  class Item {
    var next: Item?
    var prev: Item?
    var child: Item?
    var data: Data
    /** The children in order. */
    ghost var children: seq<Item>
    /** This item and everything below it. */
    ghost var repr: set<Item>

    /** cJSON_New_Item, with what a caller stores in it. */
    constructor (data: Data)
      ensures next == null && prev == null && child == null && this.data == data
      ensures children == [] && repr == {this}
    {
      next, prev, child := null, null, null;
      this.data := data;
      children, repr := [], {this};
    }

    /** next and prev are inverse along the children, the tail's next is null, the head's prev is the tail. */
    ghost predicate Linked()
      reads `child, `children, children
    {
      && this !in children && Injective(children)
      && (children == [] ==> child == null)
      && (children != [] ==>
            && child == children[0]
            && children[0].prev == children[|children| - 1]
            && children[|children| - 1].next == null)
      && (forall i {:trigger children[i].next} :: 0 <= i < |children| - 1 ==> children[i].next == children[i + 1])
      && (forall i {:trigger children[i].prev} :: 1 <= i < |children| ==> children[i].prev == children[i - 1])
    }

    /** get_array_item */
    method GetArrayItem(index: nat) returns (r: Item?)
      requires Linked()
      ensures r == if index < |children| then children[index] else null
    {
      r := child;
      var left, k := index, 0;
      while r != null && left > 0
        invariant 0 <= k <= |children| && k + left == index
        invariant r == if k < |children| then children[k] else null
        decreases left
      {
        left := left - 1;
        r := r.next;
        k := k + 1;
      }
    }

    /** add_item_to_array. Appending does not touch item.next, so it has to be null beforehand. */
    method AddItemToArray(item: Item?) returns (ok: bool)
      requires Linked()
      requires item != null ==> item !in children && (children != [] ==> item.next == null)
      modifies `child, `children
      modifies (set x | x in children)`next, (set x | x in children)`prev
      modifies (if item == null then {} else {item})`next, (if item == null then {} else {item})`prev
      ensures Linked()
      ensures ok <==> item != null && item != this
      ensures ok ==> children == old(children) + [item]
      ensures !ok ==> children == old(children)
    {
      if item == null || item == this {
        return false;
      }
      if child == null {
        child := item;
        item.prev := item;
        item.next := null;
      } else if child.prev != null {
        child.prev.next := item;
        item.prev := child.prev;
        child.prev := item;
      }
      children := children + [item];
      ok := true;
    }

    /** Taking an item out of the list. */
    method Unlink(item: Item, ghost i: nat)
      requires Linked() && i < |children| && item == children[i]
      modifies `child, `children
      modifies (set x | x in children)`next, (set x | x in children)`prev
      ensures Linked() && item.next == null && item.prev == null && children == Without(old(children), i)
    {
      ghost var before := children;
      UniqueAround(before, i);
      InjectiveWithout(before, i);
      hide Injective;
      if item != child {
        item.prev.next := item.next;
      }
      if item.next != null {
        item.next.prev := item.prev;
      }
      if item == child {
        child := item.next;
      } else if item.next == null {
        child.prev := item.prev;
      }
      item.prev := null;
      item.next := null;
      children := Without(before, i);
    }

    /** cJSON_DetachItemViaPointer, for an item of this list or one that is in no list. */
    method DetachItemViaPointer(item: Item?) returns (r: Item?)
      requires Linked()
      requires item != null && item !in children ==> item.prev == null
      modifies `child, `children
      modifies (set x | x in children)`next, (set x | x in children)`prev
      ensures Linked()
      ensures item == null || item !in old(children) ==> r == null && children == old(children)
      ensures item != null && item in old(children) ==>
                && r == item && item.next == null && item.prev == null
                && children == Without(old(children), IndexOf(old(children), item))
    {
      if item == null || (item != child && item.prev == null) {
        return null;
      }
      Unlink(item, IndexOf(children, item));
      r := item;
    }

    /** Linking a new item in before one of the list. */
    method InsertBefore(ghost which: nat, after: Item, newItem: Item)
      requires Linked() && which < |children| && after == children[which]
      requires newItem !in children && newItem != this
      modifies `child, `children
      modifies (set x | x in children)`next, (set x | x in children)`prev
      modifies newItem`next, newItem`prev
      ensures Linked() && children == Inserted(old(children), which, newItem)
    {
      ghost var before := children;
      UniqueAround(before, which);
      InjectiveInserted(before, which, newItem);
      hide Injective;
      newItem.next := after;
      newItem.prev := after.prev;
      after.prev := newItem;
      if after == child {
        child := newItem;
      } else {
        newItem.prev.next := newItem;
      }
      children := Inserted(before, which, newItem);
    }

    /** cJSON_InsertItemInArray: before the item at `which`, or at the end when there is none. */
    method InsertItemInArray(which: int, newItem: Item?) returns (ok: bool)
      requires Linked()
      requires newItem != null ==> newItem !in children && newItem != this
      requires newItem != null && which >= |children| > 0 ==> newItem.next == null
      modifies `child, `children
      modifies (set x | x in children)`next, (set x | x in children)`prev
      modifies (if newItem == null then {} else {newItem})`next, (if newItem == null then {} else {newItem})`prev
      ensures Linked()
      ensures ok <==> which >= 0 && newItem != null
      ensures ok ==> children == Inserted(old(children), which, newItem)
      ensures !ok ==> children == old(children)
    {
      if which < 0 || newItem == null {
        return false;
      }
      var after := GetArrayItem(which);
      if after == null {
        ok := AddItemToArray(newItem);
        return;
      }
      if after != child && after.prev == null {
        return false;
      }
      InsertBefore(which, after, newItem);
      ok := true;
    }

    /** cJSON_ReplaceItemViaPointer, without the final release of the replaced item. */
    method ReplaceItemViaPointer(item: Item?, replacement: Item?) returns (ok: bool)
      requires Linked()
      requires item != null && replacement != null && item != replacement && child != null ==>
                 item in children && replacement !in children && replacement != this
      modifies `child, `children
      modifies (set x | x in children)`next, (set x | x in children)`prev
      modifies (if replacement == null then {} else {replacement})`next
      modifies (if replacement == null then {} else {replacement})`prev
      ensures Linked()
      ensures ok <==> old(child) != null && replacement != null && item != null
      ensures !ok || replacement == item ==> children == old(children)
      ensures ok && replacement != item ==>
                && children == old(children)[IndexOf(old(children), item) := replacement]
                && item.next == null && item.prev == null
    {
      if child == null || replacement == null || item == null {
        return false;
      }
      if replacement == item {
        return true;
      }
      ghost var before, i := children, IndexOf(children, item);
      ghost var after := before[i := replacement];
      UniqueAround(before, i);
      InjectiveReplaced(before, i, replacement);
      hide Injective;
      assert forall j :: 0 <= j < |before| && j != i ==> after[j] == before[j];
      replacement.next := item.next;
      replacement.prev := item.prev;
      if replacement.next != null {
        replacement.next.prev := replacement;
      }
      if child == item {
        if child.prev == child {
          replacement.prev := replacement;
        }
        child := replacement;
      } else {
        if replacement.prev != null {
          replacement.prev.next := replacement;
        }
        if replacement.next == null {
          child.prev := replacement;
        }
      }
      item.next := null;
      item.prev := null;
      children := after;
      ok := true;
    }

    /** The item heads a tree of shape t, made of the items in repr and of no item twice. Its own
        links to siblings do not matter. */
    ghost predicate Shape(t: Tree)
      reads `data, `child, `children, `repr, repr - {this}
      decreases t
    {
      && this in repr && data == t.data && |children| == |t.kids|
      && (forall i :: 0 <= i < |children| ==> children[i] in repr && children[i] != this)
      && Linked()
      && (forall i :: 0 <= i < |children| ==> children[i].repr <= repr - {this})
      && (forall i, j :: 0 <= i < j < |children| ==> children[i].repr !! children[j].repr)
      && (forall i :: 0 <= i < |children| ==> children[i].Shape(t.kids[i]))
    }
  }

  // ----- chains under construction

  /** Items heading trees of the given shapes that share nothing. */
  ghost predicate Shapes(kids: seq<Item>, ts: seq<Tree>)
    reads kids, set i, x | 0 <= i < |kids| && x in kids[i].repr :: x
  {
    && |kids| == |ts| && Injective(kids)
    && (forall i :: 0 <= i < |kids| ==> kids[i].Shape(ts[i]) && kids[i] in kids[i].repr)
    && (forall i, j :: 0 <= i < j < |kids| ==> kids[i].repr !! kids[j].repr)
  }

  /** Setting a sibling link of the root of a tree leaves every tree as it is. */
  method SetNext(n: Item, m: Item?, ghost kids: seq<Item>, ghost ts: seq<Tree>, ghost k: nat)
    requires Shapes(kids, ts) && k < |kids| && n == kids[k]
    modifies n`next
    ensures Shapes(kids, ts) && n.next == m
  {
    hide Item.Shape;
    assert forall i :: 0 <= i < |kids| ==> n !in kids[i].repr - {kids[i]};
    n.next := m;
    forall i | 0 <= i < |kids| ensures kids[i].Shape(ts[i]) {
      assert old(kids[i].Shape(ts[i]));
    }
  }

  method SetPrev(n: Item, m: Item?, ghost kids: seq<Item>, ghost ts: seq<Tree>, ghost k: nat)
    requires Shapes(kids, ts) && k < |kids| && n == kids[k]
    modifies n`prev
    ensures Shapes(kids, ts) && n.prev == m
  {
    hide Item.Shape;
    assert forall i :: 0 <= i < |kids| ==> n !in kids[i].repr - {kids[i]};
    n.prev := m;
    forall i | 0 <= i < |kids| ensures kids[i].Shape(ts[i]) {
      assert old(kids[i].Shape(ts[i]));
    }
  }

  /** Items linked one to the next, the last one's next null; the head's prev is not set yet. */
  ghost predicate Chain(kids: seq<Item>)
    reads kids
  {
    && (kids != [] ==> kids[|kids| - 1].next == null)
    && (forall i {:trigger kids[i].next} :: 0 <= i < |kids| - 1 ==> kids[i].next == kids[i + 1])
    && (forall i {:trigger kids[i].prev} :: 1 <= i < |kids| ==> kids[i].prev == kids[i - 1])
  }

  /** The step both parse_array and cJSON_Duplicate_rec take: hang a new item behind the last. */
  method HangBehind(last: Item, newChild: Item, ghost kids: seq<Item>, ghost ts: seq<Tree>)
    requires Chain(kids) && Shapes(kids + [newChild], ts)
    requires kids != [] && last == kids[|kids| - 1] && newChild.next == null
    modifies last`next, newChild`prev
    ensures Chain(kids + [newChild]) && Shapes(kids + [newChild], ts)
  {
    hide Shapes;
    ghost var all := kids + [newChild];
    assert all[|kids|] == newChild && all[|kids| - 1] == last;
    assert forall i, j :: 0 <= i < j < |all| ==> all[i] != all[j] by { Distinct(all, ts); }
    SetNext(last, newChild, all, ts, |kids| - 1);
    SetPrev(newChild, last, all, ts, |kids|);
    assert forall i :: 0 <= i < |kids| ==> all[i] == kids[i];
  }

  lemma Distinct(kids: seq<Item>, ts: seq<Tree>)
    requires Shapes(kids, ts)
    ensures forall i, j :: 0 <= i < j < |kids| ==> kids[i] != kids[j]
  {
  }

  ghost method GiveChildren(parent: Item, kids: seq<Item>, ts: seq<Tree>, all: set<Item>)
    requires Shapes(kids, ts) && parent !in all && forall i :: 0 <= i < |kids| ==> kids[i].repr <= all
    modifies parent`children, parent`repr
    ensures Shapes(kids, ts) && parent.children == kids && parent.repr == {parent} + all
    ensures forall i :: 0 <= i < |kids| ==> kids[i].repr == old(kids[i].repr) && kids[i] != parent
  {
    hide Item.Shape;
    assert forall i :: 0 <= i < |kids| ==> parent !in kids[i].repr;
    parent.children := kids;
    parent.repr := {parent} + all;
    forall i | 0 <= i < |kids| ensures kids[i].Shape(ts[i]) {
      assert old(kids[i].Shape(ts[i]));
    }
  }

  /** A parent that has got its first children, all made of the items in `all`. */
  ghost predicate Built(parent: Item, kids: seq<Item>, last: Item?, ts: seq<Tree>, all: set<Item>)
    reads parent, kids, all
  {
    && (forall i :: 0 <= i < |kids| ==> kids[i] in all && kids[i].repr <= all)
    && Chain(kids) && Shapes(kids, ts) && parent !in all
    && parent.child == (if kids == [] then null else kids[0])
    && last == (if kids == [] then null else kids[|kids| - 1])
  }

  /** The last steps: the head's prev is set to the tail, and the parent has its children. */
  method Adopt(parent: Item, ghost kids: seq<Item>, last: Item?, ghost ts: seq<Tree>, ghost all: set<Item>)
    requires Built(parent, kids, last, ts, all)
    modifies parent`children, parent`repr, (if parent.child == null then {} else {parent.child})`prev
    ensures parent.Shape(Tree(parent.data, ts)) && parent.repr == {parent} + all
  {
    Distinct(kids, ts);
    if parent.child != null {
      SetPrev(parent.child, last, kids, ts, 0);
    }
    GiveChildren(parent, kids, ts, all);
    ShapesParts(kids, ts);
    hide Item.Shape, Shapes;
    assert parent.Linked();
    ParentShape(parent, ts);
  }

  lemma ShapesParts(kids: seq<Item>, ts: seq<Tree>)
    requires Shapes(kids, ts)
    ensures |kids| == |ts| && Injective(kids)
    ensures forall i :: 0 <= i < |kids| ==> kids[i].Shape(ts[i]) && kids[i] in kids[i].repr
    ensures forall i, j :: 0 <= i < j < |kids| ==> kids[i].repr !! kids[j].repr
  {
    hide Item.Shape;
  }

  lemma ParentShape(parent: Item, ts: seq<Tree>)
    requires parent in parent.repr && parent.Linked() && |parent.children| == |ts|
    requires forall i :: 0 <= i < |ts| ==> parent.children[i].repr <= parent.repr - {parent}
    requires forall i :: 0 <= i < |ts| ==> parent.children[i] in parent.children[i].repr && parent.children[i].Shape(ts[i])
    requires forall i, j :: 0 <= i < j < |ts| ==> parent.children[i].repr !! parent.children[j].repr
    ensures parent.Shape(Tree(parent.data, ts))
  {
  }

  lemma ShapesSnoc(kids: seq<Item>, ts: seq<Tree>, n: Item, t: Tree, all: set<Item>)
    requires Shapes(kids, ts) && n.Shape(t) && n in n.repr && n.repr !! all
    requires forall i :: 0 <= i < |kids| ==> kids[i].repr <= all
    ensures Shapes(kids + [n], ts + [t])
  {
    hide Item.Shape;
    var both, shapes := kids + [n], ts + [t];
    forall i | 0 <= i < |both|
      ensures both[i].Shape(shapes[i]) && both[i] in both[i].repr
    {
      assert i < |kids| ==> both[i] == kids[i] && shapes[i] == ts[i];
    }
    forall i, j | 0 <= i < j < |both| ensures both[i].repr !! both[j].repr && both[i] != both[j] {
      assert both[i] == kids[i] && (j < |kids| ==> both[j] == kids[j]);
    }
  }

  lemma SingleShape(n: Item, t: Tree)
    requires n.Shape(t) && n in n.repr && n.next == null
    ensures Chain([n]) && Shapes([n], [t])
  {
    hide Item.Shape;
  }

  lemma NoShapes(kids: seq<Item>, ts: seq<Tree>)
    requires Shapes(kids, ts)
    ensures kids == [] ==> ts == []
  {
  }

  /** One turn of the loop of cJSON_Duplicate_rec after the child has been copied. */
  method AppendCopy(newItem: Item, last: Item?, copy: Item, ghost kids: seq<Item>, ghost ts: seq<Tree>, ghost t: Tree,
                    ghost all: set<Item>)
    requires Built(newItem, kids, last, ts, all) && copy.next == null
    requires copy.Shape(t) && copy in copy.repr && copy.repr !! all && newItem !in copy.repr
    modifies copy`prev, (if last == null then {} else {last})`next, newItem`child
    ensures newItem.child == if last == null then copy else old(newItem.child)
    ensures copy.repr == old(copy.repr) && Built(newItem, kids + [copy], copy, ts + [t], all + copy.repr)
  {
    hide Item.Shape, Shapes, Chain;
    ghost var both := kids + [copy];
    assert both[|kids|] == copy && forall i :: 0 <= i < |kids| ==> both[i] == kids[i];
    if last != null {
      ShapesSnoc(kids, ts, copy, t, all);
      HangBehind(last, copy, kids, ts + [t]);
    } else {
      NoShapes(kids, ts);
      newItem.child := copy;
      SingleShape(copy, t);
      assert both == [copy] && ts + [t] == [t];
    }
    assert both[0] == newItem.child;
  }

  lemma ChildShape(item: Item, t: Tree, i: nat)
    requires item.Shape(t)
    ensures item.data == t.data && item.child == ChildAt(item, 0)
    ensures ChildAt(item, i) != null <==> i < |t.kids|
    ensures i < |t.kids| ==> ChildAt(item, i).Shape(t.kids[i]) && ChildAt(item, i).next == ChildAt(item, i + 1)
  {
  }

  /** The body of the loop of cJSON_Duplicate_rec. */
  method CopyChild(newItem: Item, last: Item?, child: Item, depth: nat, ghost kids: seq<Item>, ghost ts: seq<Tree>,
                   ghost t: Tree, ghost all: set<Item>)
    returns (ok: bool, copy: Item)
    requires child.Shape(t) && depth <= CIRCULAR_LIMIT && Built(newItem, kids, last, ts, all)
    modifies (if last == null then {} else {last})`next, newItem`child
    ensures ok <==> depth + 1 + Levels(t) <= CIRCULAR_LIMIT
    ensures ok ==> fresh(copy.repr) && copy in copy.repr && newItem.child == (if last == null then copy else old(newItem.child))
    ensures ok ==> Built(newItem, kids + [copy], copy, ts + [t], all + copy.repr)
    decreases t, 2
  {
    copy := newItem;
    if depth >= CIRCULAR_LIMIT {
      return false, copy;
    }
    hide Item.Shape, Built;
    var r := DuplicateRec(child, depth + 1, true, t);
    if r == null {
      return false, copy;
    }
    AppendCopy(newItem, last, r, kids, ts, t, all);
    return true, r;
  }

  /** The loop of cJSON_Duplicate_rec over the children of an item. */
  method CopyChildren(newItem: Item, item: Item, depth: nat, ghost t: Tree)
    returns (ok: bool, last: Item?, ghost kids: seq<Item>, ghost all: set<Item>)
    requires item.Shape(t) && depth <= CIRCULAR_LIMIT && newItem.child == null && newItem !in item.repr
    modifies newItem`child
    ensures ok <==> depth + Levels(t) <= CIRCULAR_LIMIT
    ensures ok ==> fresh(all) && Built(newItem, kids, last, t.kids, all) && (newItem.child != null ==> newItem.child in all)
    decreases t, 0
  {
    hide *;
    LevelsStart(t);
    ChildShape(item, t, 0);
    kids, all, last := [], {}, null;
    NothingYet(newItem);
    var child := item.child;
    ghost var n: nat := 0;
    assert t.kids[..0] == [];
    while child != null
      invariant n <= |t.kids| && item.Shape(t)
      invariant child == ChildAt(item, n)
      invariant depth + LevelsOf(t.kids[..n]) <= CIRCULAR_LIMIT
      invariant fresh(all) && (last != null ==> last in all) && (newItem.child != null ==> newItem.child in all)
      invariant Built(newItem, kids, last, t.kids[..n], all)
      modifies newItem`child
      decreases |t.kids| - n
    {
      ChildShape(item, t, n);
      LevelsStep(t.kids, n, depth);
      var copy;
      ok, copy := CopyChild(newItem, last, child, depth, kids, t.kids[..n], t.kids[n], all);
      if !ok {
        return;
      }
      PrefixSnoc(t.kids, n);
      last := copy;
      kids, all := kids + [copy], all + copy.repr;
      ChildShape(item, t, n);
      child := child.next;
      n := n + 1;
    }
    ChildShape(item, t, n);
    assert t.kids[..n] == t.kids;
    ok := true;
  }

  ghost function ChildAt(item: Item, i: nat): Item?
    reads item`children
  {
    if i < |item.children| then item.children[i] else null
  }

  lemma LevelsStep(kids: seq<Tree>, n: nat, depth: nat)
    requires n < |kids|
    ensures depth + LevelsOf(kids[..n + 1]) <= CIRCULAR_LIMIT
       <==> depth + LevelsOf(kids[..n]) <= CIRCULAR_LIMIT && depth + 1 + Levels(kids[n]) <= CIRCULAR_LIMIT
    ensures LevelsOf(kids[..n + 1]) <= LevelsOf(kids)
  {
    hide Levels, LevelsOf;
    LevelsOfPrefix(kids, n);
  }

  lemma PrefixSnoc<T>(s: seq<T>, n: nat)
    requires n < |s|
    ensures s[..n] + [s[n]] == s[..n + 1]
  {
  }

  /** cJSON_Duplicate_rec: a fresh copy of the whole tree with its own links, unless some item lies more
      than CIRCULAR_LIMIT levels down; the original is not touched. */
  method DuplicateRec(item: Item, depth: nat, recurse: bool, ghost t: Tree) returns (r: Item?)
    requires item.Shape(t) && depth <= CIRCULAR_LIMIT
    ensures r != null <==> !recurse || depth + Levels(t) <= CIRCULAR_LIMIT
    ensures r != null ==> fresh(r.repr) && r in r.repr && r.Shape(if recurse then t else Tree(t.data, []))
    ensures r != null ==> r.next == null && r.prev == null
    decreases t, 1
  {
    hide *;
    ChildShape(item, t, 0);
    var newItem := new Item(item.data);
    if !recurse {
      Childless(newItem);
      return newItem;
    }
    var ok, last, kids, all := CopyChildren(newItem, item, depth, t);
    if !ok {
      return null;
    }
    Adopt(newItem, kids, last, t.kids, all);
    r := newItem;
  }

  lemma LevelsStart(t: Tree)
    ensures LevelsOf([]) == 0 && Levels(t) == LevelsOf(t.kids)
  {
  }

  lemma Childless(item: Item)
    requires item.children == [] && item.repr == {item} && item.child == null
    ensures item.Shape(Tree(item.data, []))
  {
  }

  lemma NothingYet(newItem: Item)
    requires newItem.child == null
    ensures Built(newItem, [], null, [], {})
  {
  }
}
