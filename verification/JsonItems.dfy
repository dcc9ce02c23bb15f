// The child lists of stu_json.c: a head without a sentinel, `next` ending in null, and the
// `prev` of the first child pointing at the last one.
module JsonItems {
  import opened Bytes

  class Item {
    const key: seq<Byte>
    var value: Item?  // the first child
    var prev: Item?
    var next: Item?

    constructor (key: seq<Byte>)
      ensures this.key == key && value == null && prev == this && next == null
    {
      this.key, value, prev, next := key, null, this, null;
    }
  }

  ghost predicate Children(parent: Item, s: seq<Item>)
    reads parent, s
  {
    && parent !in s
    && (forall i, j {:trigger s[i], s[j]} :: 0 <= i < j < |s| ==> s[i] != s[j])
    && parent.value == (if s == [] then null else s[0])
    && (forall i {:trigger s[i].next} :: 0 <= i < |s| ==> s[i].next == if i + 1 < |s| then s[i + 1] else null)
    && (forall i {:trigger s[i].prev} :: 0 <= i < |s| ==> s[i].prev == s[if i > 0 then i - 1 else |s| - 1])
  }

  method AddItemToObject(parent: Item, item: Item, ghost s: seq<Item>)
    requires Children(parent, s) && item != parent && item !in s && item.prev == item && item.next == null
    modifies parent`value, item`prev, s`next, s`prev
    ensures Children(parent, s + [item])
  {
    if parent.value == null {
      parent.value := item;
      item.prev := item;
      return;
    }
    var child := parent.value;
    assert child.prev == s[0].prev == s[|s| - 1];
    child.prev.next := item;
    item.prev := child.prev;
    child.prev := item;
  }

  method GetArrayItemAt(list: Item, index: int, ghost s: seq<Item>) returns (item: Item?)
    requires Children(list, s)
    ensures item == if 0 <= index < |s| then s[index] else null
  {
    item := list.value;
    var left := index;
    ghost var i := 0;
    while item != null && left != 0
      invariant 0 <= i <= |s| && left == index - i && item == (if i < |s| then s[i] else null)
      invariant index >= 0 ==> i <= index
      decreases |s| - i
    {
      assert item == s[i];
      item, left, i := item.next, left - 1, i + 1;
    }
  }

  predicate SameKey(item: Item, key: seq<Byte>) {
    |item.key| == |key| && CStr(item.key) == CStr(key)
  }

  // The first child of that name.
  method GetObjectItemBy(parent: Item, key: seq<Byte>, ghost s: seq<Item>) returns (item: Item?, ghost i: nat)
    requires Children(parent, s)
    ensures i <= |s| && (forall j :: 0 <= j < i ==> !SameKey(s[j], key))
    ensures if i < |s| then item == s[i] && SameKey(s[i], key) else item == null
    ensures i < |s| ==> |s[i].key| == |key| && CStr(s[i].key) == CStr(key)
    ensures forall j :: 0 <= j < i ==> |s[j].key| != |key| || CStr(s[j].key) != CStr(key)
  {
    item, i := parent.value, 0;
    while item != null
      invariant 0 <= i <= |s| && item == (if i < |s| then s[i] else null)
      invariant forall j :: 0 <= j < i ==> !SameKey(s[j], key)
      decreases |s| - i
    {
      assert item == s[i];
      if |item.key| == |key| && CStr(item.key) == CStr(key) {
        return;
      }
      item, i := item.next, i + 1;
    }
  }
}
