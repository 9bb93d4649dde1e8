/** The singly linked list (threads/list.h), proved against sequences of keyed items. */
module Lists {

  datatype Entry<T> = Entry(key: int, item: T)

  ghost predicate Sorted<T>(s: seq<Entry<T>>) {
    forall i, j :: 0 <= i < j < |s| ==> s[i].key <= s[j].key
  }

  /** The position of the first entry with a larger key. */
  function Above<T>(s: seq<Entry<T>>, key: int): (i: nat)
    ensures i <= |s|
    ensures forall j :: 0 <= j < i ==> s[j].key <= key
    ensures i < |s| ==> key < s[i].key
  {
    if s == [] || key < s[0].key then 0 else 1 + Above(s[1..], key)
  }

  /** SortedInsert: before the first entry with a larger key, so behind those with the same. */
  function Insert<T>(s: seq<Entry<T>>, e: Entry<T>): (r: seq<Entry<T>>)
    ensures |r| == |s| + 1
  {
    s[..Above(s, e.key)] + [e] + s[Above(s, e.key)..]
  }

  lemma InsertAt<T>(s: seq<Entry<T>>, e: Entry<T>, j: nat)
    requires j <= |s|
    ensures var i := Above(s, e.key); Insert(s, e)[j] == if j < i then s[j] else if j == i then e else s[j - 1]
  {
  }

  lemma InsertKeepsSorted<T>(s: seq<Entry<T>>, e: Entry<T>)
    requires Sorted(s)
    ensures Sorted(Insert(s, e))
  {
    var i, r := Above(s, e.key), Insert(s, e);
    hide Insert, Above;
    forall a, b | 0 <= a < b < |r|
      ensures r[a].key <= r[b].key
    {
      InsertAt(s, e, a);
      InsertAt(s, e, b);
      if a == i && b > i + 1 { assert s[i].key <= s[b - 1].key; }
    }
  }

  /** `r` is `s` with `e` put in at `i`, before the first entry with a larger key. */
  ghost predicate InsertedAt<T>(s: seq<Entry<T>>, e: Entry<T>, r: seq<Entry<T>>, i: int) {
    && 0 <= i <= |s| && r == s[..i] + [e] + s[i..]
    && (forall j :: 0 <= j < i ==> s[j].key <= e.key) && (i < |s| ==> e.key < s[i].key)
  }

  /** Inserting keeps a list sorted, and adds the entry and nothing else, before the first larger key. */
  lemma InsertSorted<T>(s: seq<Entry<T>>, e: Entry<T>)
    ensures Sorted(s) ==> Sorted(Insert(s, e))
    ensures multiset(Insert(s, e)) == multiset(s) + multiset{e}
    ensures exists i :: InsertedAt(s, e, Insert(s, e), i)
  {
    if Sorted(s) { InsertKeepsSorted(s, e); }
    assert s == s[..Above(s, e.key)] + s[Above(s, e.key)..];
    assert InsertedAt(s, e, Insert(s, e), Above(s, e.key));
  }

  class Node<T> {
    var item: T
    var key: int
    var next: Node?<T>

    constructor (item: T, key: int)
      ensures this.item == item && this.key == key && next == null
    {
      this.item, this.key, next := item, key, null;
    }
  }

  ghost predicate Distinct<T>(s: seq<Node<T>>) {
    forall i, j :: 0 <= i < j < |s| ==> s[i] != s[j]
  }

  class List<T(0)> {
    var first: Node?<T>
    var last: Node?<T>
    ghost var nodes: seq<Node<T>>
    ghost var contents: seq<Entry<T>>

    /** What the `i`-th node points at. */
    ghost function Behind(i: nat): Node?<T>
      reads this
    {
      if i + 1 < |nodes| then nodes[i + 1] else null
    }

    /** The `i`-th node holds the `i`-th entry and points at the next. */
    ghost predicate Linked(i: nat)
      requires i < |nodes| == |contents|
      reads this, nodes
    {
      nodes[i].next == Behind(i) && nodes[i].key == contents[i].key && nodes[i].item == contents[i].item
    }

    /** The nodes are chained in order, from first to last, and hold the contents. */
    ghost predicate Valid()
      reads this, nodes
    {
      && |nodes| == |contents| && Distinct(nodes)
      && (first == if nodes == [] then null else nodes[0])
      && (last == if nodes == [] then null else nodes[|nodes| - 1])
      && (forall i :: 0 <= i < |nodes| ==> Linked(i))
    }

    constructor ()
      ensures Valid() && nodes == [] && contents == []
    {
      first, last, nodes, contents := null, null, [], [];
    }

    predicate IsEmpty()
      requires Valid()
      reads this, nodes
      ensures IsEmpty() <==> contents == []
    {
      first == null
    }

    method Append(item: T)
      requires Valid()
      modifies this, last
      ensures Valid() && fresh(set n | n in nodes && n !in old(nodes))
      ensures contents == old(contents) + [Entry(0, item)]
    {
      if IsEmpty() {
        PushFront(item, 0);
      } else {
        PushBack(item, 0);
      }
    }

    method Prepend(item: T)
      requires Valid()
      modifies this
      ensures Valid() && fresh(set n | n in nodes && n !in old(nodes))
      ensures contents == [Entry(0, item)] + old(contents)
    {
      PushFront(item, 0);
    }

    /** Takes the first item off; nothing exactly when the list is empty. */
    method SortedRemove() returns (found: bool, item: T, key: int)
      requires Valid()
      modifies this
      ensures Valid() && found == (old(contents) != [])
      ensures !found ==> contents == []
      ensures found ==> Entry(key, item) == old(contents)[0] && contents == old(contents)[1..]
      ensures forall n :: n in nodes ==> n in old(nodes)
    {
      if IsEmpty() {
        item := *;
        return false, item, 0;
      }
      assert Linked(0);
      var element := first;
      item, key := element.item, element.key;
      if first == last {
        first := null;
        last := null;
      } else {
        first := element.next;
      }
      nodes, contents := nodes[1..], contents[1..];
      forall i | 0 <= i < |nodes|
        ensures Linked(i)
      {
        assert old(Linked(i + 1));
      }
      found := true;
    }

    method SortedInsert(item: T, sortKey: int)
      requires Valid()
      modifies this, nodes
      ensures Valid() && fresh(set n | n in nodes && n !in old(nodes))
      ensures contents == Insert(old(contents), Entry(sortKey, item))
    {
      ghost var before := contents;
      if IsEmpty() || sortKey < first.key {
        if !IsEmpty() { assert Linked(0); }
        AboveIs(before, sortKey, 0);
        PushFront(item, sortKey);
      } else {
        assert Linked(0);
        var ptr := first;
        ghost var i := 0;
        while ptr.next != null
          invariant 0 <= i < |nodes| && ptr == nodes[i] && Valid() && contents == before && nodes == old(nodes)
          invariant forall j :: 0 <= j <= i ==> before[j].key <= sortKey
          decreases |nodes| - i
        {
          assert Linked(i) && Linked(i + 1);
          if sortKey < ptr.next.key {
            AboveIs(before, sortKey, i + 1);
            InsertBehind(ptr, item, sortKey, i);
            return;
          }
          ptr := ptr.next;
          i := i + 1;
        }
        assert Linked(i);
        AboveIs(before, sortKey, |before|);
        PushBack(item, sortKey);
      }
    }

    /** A new node in front of all, in an empty list the only one. */
    method PushFront(item: T, sortKey: int)
      requires Valid()
      modifies this
      ensures Valid() && fresh(set n | n in nodes && n !in old(nodes))
      ensures contents == [Entry(sortKey, item)] + old(contents)
    {
      var element := new Node(item, sortKey);
      if IsEmpty() {
        first := element;
        last := element;
      } else {
        element.next := first;
        first := element;
      }
      nodes, contents := [element] + nodes, [Entry(sortKey, item)] + contents;
      forall i | 0 <= i < |nodes|
        ensures Linked(i)
      {
        if i > 0 { assert old(Linked(i - 1)); }
      }
    }

    /** A new node behind the last. */
    method PushBack(item: T, sortKey: int)
      requires Valid() && nodes != []
      modifies this, last
      ensures Valid() && fresh(set n | n in nodes && n !in old(nodes))
      ensures contents == old(contents) + [Entry(sortKey, item)]
    {
      var element := new Node(item, sortKey);
      OthersDiffer(nodes, |nodes| - 1);
      last.next := element;
      last := element;
      nodes, contents := nodes + [element], contents + [Entry(sortKey, item)];
      forall i | 0 <= i < |nodes|
        ensures Linked(i)
      {
        if i < |nodes| - 1 { assert old(Linked(i)); }
      }
    }

    /** A new node between the `i`-th and the next. */
    method InsertBehind(ptr: Node<T>, item: T, sortKey: int, ghost i: nat)
      requires Valid() && i + 1 < |nodes| && ptr == nodes[i]
      modifies this`nodes, this`contents, ptr
      ensures Valid() && fresh(set n | n in nodes && n !in old(nodes))
      ensures contents == old(contents)[..i + 1] + [Entry(sortKey, item)] + old(contents)[i + 1..]
    {
      OthersDiffer(nodes, i);
      assert Linked(i);
      var element := new Node(item, sortKey);
      SplicedDistinct(nodes, element, i);
      hide Distinct;
      element.next := ptr.next;
      ptr.next := element;
      nodes, contents := Spliced(nodes, element, i), Spliced(contents, Entry(sortKey, item), i);
      forall j | 0 <= j < |nodes|
        ensures Linked(j)
      {
        if j <= i { assert old(Linked(j)); } else if j > i + 1 { assert old(Linked(j - 1)); }
      }
    }
  }

  lemma OthersDiffer<T>(s: seq<Node<T>>, i: nat)
    requires Distinct(s) && i < |s|
    ensures forall j :: 0 <= j < |s| && j != i ==> s[j] != s[i]
  {
  }

  lemma SplicedDistinct<T>(before: seq<Node<T>>, element: Node<T>, i: nat)
    requires Distinct(before) && i < |before| && element !in before
    ensures Distinct(Spliced(before, element, i))
  {
  }

  /** An element put in behind the `i`-th. */
  ghost function Spliced<X>(before: seq<X>, element: X, i: nat): (r: seq<X>)
    requires i < |before|
    ensures |r| == |before| + 1
    ensures forall j :: 0 <= j < |r| ==>
              r[j] == if j <= i then before[j] else if j == i + 1 then element else before[j - 1]
  {
    before[..i + 1] + [element] + before[i + 1..]
  }

  lemma {:induction false} AboveIs<T>(s: seq<Entry<T>>, key: int, i: nat)
    requires i <= |s| && (forall j :: 0 <= j < i ==> s[j].key <= key) && (i < |s| ==> key < s[i].key)
    ensures Above(s, key) == i
  {
  }
}
