/** Children of a JSON item: a doubly linked list hanging off the parent. */
module ChildList {
  import opened Bytes
  import opened Sequences

  /** What an item holds besides its place in the tree. */
  datatype Payload = Payload(kind: int, text: Option<seq<byte>>, number: seq<byte>)

  class Node {
    var payload: Payload
    var key: Option<seq<byte>>
    var next: Node?
    var prev: Node?
    var child: Node?
    /** The children, in order. */
    ghost var kids: seq<Node>

    /** `cJSON_New_Item` */
    constructor (payload: Payload, key: Option<seq<byte>>)
      ensures this.payload == payload && this.key == key
      ensures next == null && prev == null && child == null && kids == []
    {
      this.payload, this.key := payload, key;
      next, prev, child := null, null, null;
      kids := [];
    }
  }

  function Nth(s: seq<Node>, i: int): Node? { if 0 <= i < |s| then s[i] else null }

  ghost predicate Forward(s: seq<Node>)
    reads s`next
  {
    forall i {:trigger s[i].next} :: 0 <= i < |s| ==> s[i].next == Nth(s, i + 1)
  }

  ghost predicate Backward(s: seq<Node>)
    reads s`prev
  {
    forall i {:trigger s[i].prev} :: 0 <= i < |s| ==> s[i].prev == Nth(s, i - 1)
  }

  /** The children of `p` are linked in order, both ways, without repetition. */
  ghost predicate Listed(p: Node)
    reads p`child, p`kids, p.kids`next, p.kids`prev
  {
    p.child == Nth(p.kids, 0) && Forward(p.kids) && Backward(p.kids) && Distinct(p.kids)
  }

  /** An item that is in no list. */
  predicate Loose(n: Node)
    reads n`next, n`prev
  {
    n.next == null && n.prev == null
  }

  /** `cJSON_GetArraySize` */
  method GetArraySize(list: Node) returns (n: nat)
    requires Listed(list)
    ensures n == |list.kids|
  {
    var c := list.child;
    n := 0;
    while c != null
      invariant n <= |list.kids| && c == Nth(list.kids, n)
      decreases |list.kids| - n
    {
      n := n + 1;
      c := c.next;
    }
  }

  /** `cJSON_GetArrayItem` */
  method GetArrayItem(list: Node, index: int) returns (c: Node?)
    requires Listed(list)
    ensures c == Nth(list.kids, index)
  {
    if index < 0 {
      return null;
    }
    c := list.child;
    var left := index;
    while c != null && left > 0
      invariant 0 <= left <= index && c == Nth(list.kids, index - left)
      decreases left
    {
      left := left - 1;
      c := c.next;
    }
  }

  function Lower(b: byte): byte { if 65 <= b <= 90 then b + 32 else b }

  function Folded(s: seq<byte>): seq<byte> { seq(|s|, i requires 0 <= i < |s| => Lower(s[i])) }

  predicate KeyMatches(key: Option<seq<byte>>, name: seq<byte>) { key.Some? && Folded(key.value) == Folded(name) }

  /** The same byte, or the two cases of one letter. */
  predicate SameLetter(a: byte, b: byte) {
    || a == b
    || (65 <= a <= 90 && b == a + 32)
    || (65 <= b <= 90 && a == b + 32)
  }

  /** A key matches a name exactly when they are of the same length and agree letter by letter, but for case. */
  lemma MatchIsCaseBlind(key: seq<byte>, name: seq<byte>)
    ensures KeyMatches(Some(key), name) <==>
      |key| == |name| && forall i :: 0 <= i < |key| ==> SameLetter(key[i], name[i])
  {
    if KeyMatches(Some(key), name) {
      forall i | 0 <= i < |key| ensures SameLetter(key[i], name[i]) {
        assert Folded(key)[i] == Folded(name)[i];
      }
    }
  }

  /** `cJSON_GetObjectItem`: the first child whose key is the name, upper and lower case alike. */
  method GetObjectItem(parent: Node, name: seq<byte>) returns (c: Node?, ghost k: nat)
    requires Listed(parent)
    ensures k <= |parent.kids| && c == Nth(parent.kids, k)
    ensures k < |parent.kids| ==> KeyMatches(parent.kids[k].key, name)
    ensures forall i :: 0 <= i < k ==> !KeyMatches(parent.kids[i].key, name)
    ensures c == null ==> forall i :: 0 <= i < |parent.kids| ==> !KeyMatches(parent.kids[i].key, name)
    ensures c != null ==> c in parent.kids && KeyMatches(c.key, name)
  {
    hide KeyMatches;
    c, k := parent.child, 0;
    while c != null && !KeyMatches(c.key, name)
      invariant k <= |parent.kids| && c == Nth(parent.kids, k)
      invariant forall i :: 0 <= i < k ==> !KeyMatches(parent.kids[i].key, name)
      decreases |parent.kids| - k
    {
      c, k := c.next, k + 1;
    }
  }

  // ---------------------------------------------------------------------------------------------
  // Relinking

  lemma Relinked(s: seq<Node>, k: nat, n: Node)
    requires k <= |s|
    requires n.prev == Nth(s, k - 1) && n.next == Nth(s, k)
    requires forall i {:trigger s[i].next} :: 0 <= i < |s| ==> s[i].next == if i == k - 1 then n else Nth(s, i + 1)
    requires forall i {:trigger s[i].prev} :: 0 <= i < |s| ==> s[i].prev == if i == k then n else Nth(s, i - 1)
    ensures Forward(Inserted(s, k, n)) && Backward(Inserted(s, k, n))
    ensures Nth(Inserted(s, k, n), 0) == if k == 0 then n else Nth(s, 0)
  {
    InsertedIndex(s, k, n);
    hide Inserted;
  }

  lemma Bridged(s: seq<Node>, k: nat)
    requires k < |s|
    requires forall i {:trigger s[i].next} :: 0 <= i < |s| && i != k ==>
      s[i].next == if i == k - 1 then Nth(s, k + 1) else Nth(s, i + 1)
    requires forall i {:trigger s[i].prev} :: 0 <= i < |s| && i != k ==>
      s[i].prev == if i == k + 1 then Nth(s, k - 1) else Nth(s, i - 1)
    ensures Forward(Removed(s, k)) && Backward(Removed(s, k))
    ensures Nth(Removed(s, k), 0) == if k == 0 then Nth(s, 1) else Nth(s, 0)
  {
    RemovedIndex(s, k);
    hide Removed;
  }

  lemma InsertedAtEnd(s: seq<Node>, n: Node)
    ensures Inserted(s, |s|, n) == s + [n]
  {
  }

  /** The last child, for `cJSON_AddItemToArray` to append to. */
  method LastChild(list: Node) returns (c: Node)
    requires Listed(list) && list.child != null
    ensures list.kids != [] && c == list.kids[|list.kids| - 1]
  {
    c := list.child;
    ghost var k := 0;
    while c.next != null
      invariant k < |list.kids| && c == list.kids[k]
      decreases |list.kids| - k
    {
      c, k := c.next, k + 1;
    }
  }

  /** `cJSON_AddItemToArray` */
  method AddItemToArray(list: Node, item: Node)
    requires Listed(list) && Loose(item) && item !in list.kids
    modifies list`child, list`kids, item`prev, list.kids`next
    ensures Listed(list) && list.kids == old(list.kids) + [item]
  {
    ghost var s := list.kids;
    InsertedDistinct(s, |s|, item);
    InsertedAtEnd(s, item);
    if list.child == null {
      list.child := item;
    } else {
      var last := LastChild(list);
      last.next := item;
      item.prev := last;
    }
    list.kids := s + [item];
    Relinked(s, |s|, item);
    hide Inserted, Distinct, Forward, Backward;
  }

  /** `cJSON_DetachItemViaPointer` */
  method Detach(parent: Node, item: Node, ghost k: nat)
    requires Listed(parent) && k < |parent.kids| && parent.kids[k] == item
    modifies parent`child, parent`kids, parent.kids`next, parent.kids`prev
    ensures Listed(parent) && parent.kids == Removed(old(parent.kids), k) && Loose(item)
  {
    ghost var s := parent.kids;
    RemovedDistinct(s, k);
    Unlink(parent, item, s, k);
    parent.kids := Removed(s, k);
    hide Removed, Distinct, Forward, Backward;
  }

  /** The pointer updates of a removal. */
  method Unlink(parent: Node, item: Node, ghost s: seq<Node>, ghost k: nat)
    requires Forward(s) && Backward(s) && Distinct(s) && k < |s| && s[k] == item && parent.child == Nth(s, 0)
    modifies parent`child, s`next, s`prev
    ensures Forward(Removed(s, k)) && Backward(Removed(s, k)) && parent.child == Nth(Removed(s, k), 0) && Loose(item)
  {
    if item.prev != null {
      item.prev.next := item.next;
    }
    if item.next != null {
      item.next.prev := item.prev;
    }
    if item == parent.child {
      parent.child := item.next;
    }
    item.prev := null;
    item.next := null;
    Bridged(s, k);
    hide Removed;
  }

  /** `cJSON_DetachItemFromArray` */
  method DetachItemFromArray(list: Node, which: int) returns (c: Node?)
    requires Listed(list)
    modifies list`child, list`kids, list.kids`next, list.kids`prev
    ensures Listed(list) && c == Nth(old(list.kids), which) && (c != null ==> Loose(c))
    ensures list.kids == if 0 <= which < |old(list.kids)| then Removed(old(list.kids), which) else old(list.kids)
  {
    c := GetArrayItem(list, which);
    if c != null {
      Detach(list, c, which);
    }
  }

  /** `cJSON_DetachItemFromObject` */
  method DetachItemFromObject(parent: Node, name: seq<byte>) returns (c: Node?, ghost k: nat)
    requires Listed(parent)
    modifies parent`child, parent`kids, parent.kids`next, parent.kids`prev
    ensures Listed(parent) && k <= |old(parent.kids)| && c == Nth(old(parent.kids), k) && (c != null ==> Loose(c))
    ensures forall i :: 0 <= i < k ==> !KeyMatches(old(parent.kids)[i].key, name)
    ensures c != null ==> KeyMatches(c.key, name)
    ensures parent.kids == if k < |old(parent.kids)| then Removed(old(parent.kids), k) else old(parent.kids)
  {
    hide KeyMatches;
    c, k := GetObjectItem(parent, name);
    if c != null {
      Detach(parent, c, k);
    }
  }

  /** Where `cJSON_InsertItemInArray` puts an item: past the end means at the end. */
  function InsertedAt(s: seq<Node>, which: int, n: Node): seq<Node> {
    if which < 0 then s else if which < |s| then Inserted(s, which, n) else s + [n]
  }

  /** `cJSON_InsertItemInArray` */
  method InsertItemInArray(list: Node, which: int, item: Node)
    requires Listed(list) && Loose(item) && item !in list.kids
    modifies list`child, list`kids, item`prev, item`next, list.kids`next, list.kids`prev
    ensures Listed(list) && list.kids == InsertedAt(old(list.kids), which, item)
  {
    if which < 0 {
      return;
    }
    var after := GetArrayItem(list, which);
    if after == null {
      AddItemToArray(list, item);
      return;
    }
    ghost var s := list.kids;
    InsertedDistinct(s, which, item);
    LinkBefore(list, after, item, s, which);
    list.kids := Inserted(s, which, item);
    hide Inserted, Distinct, Forward, Backward;
  }

  /** The pointer updates of an insertion. */
  method LinkBefore(list: Node, after: Node, item: Node, ghost s: seq<Node>, ghost k: nat)
    requires Forward(s) && Backward(s) && Distinct(s) && k < |s| && s[k] == after && item !in s
    requires list.child == Nth(s, 0)
    modifies list`child, item`prev, item`next, s`next, s`prev
    ensures Forward(Inserted(s, k, item)) && Backward(Inserted(s, k, item))
    ensures list.child == Nth(Inserted(s, k, item), 0)
  {
    item.next := after;
    item.prev := after.prev;
    after.prev := item;
    if after == list.child {
      list.child := item;
    } else {
      item.prev.next := item;
    }
    Relinked(s, k, item);
    hide Inserted;
  }

  lemma Swapped(s: seq<Node>, k: nat, n: Node)
    requires k < |s| && n.prev == Nth(s, k - 1) && n.next == Nth(s, k + 1)
    requires forall i {:trigger s[i].next} :: 0 <= i < |s| && i != k ==>
      s[i].next == if i == k - 1 then n else Nth(s, i + 1)
    requires forall i {:trigger s[i].prev} :: 0 <= i < |s| && i != k ==>
      s[i].prev == if i == k + 1 then n else Nth(s, i - 1)
    ensures Forward(s[k := n]) && Backward(s[k := n])
  {
  }

  /** `cJSON_ReplaceItemViaPointer` */
  method ReplaceItemViaPointer(parent: Node, item: Node, replacement: Node, ghost k: nat)
    requires Listed(parent) && k < |parent.kids| && parent.kids[k] == item
    requires replacement == item || replacement !in parent.kids
    modifies parent`child, parent`kids, replacement`next, replacement`prev, parent.kids`next, parent.kids`prev
    ensures Listed(parent) && parent.kids == old(parent.kids)[k := replacement]
    ensures replacement != item ==> Loose(item)
  {
    ghost var s := parent.kids;
    if replacement != item {
      Substitute(parent, item, replacement, s, k);
      parent.kids := s[k := replacement];
    }
    hide Forward, Backward;
  }

  /** The pointer updates of a replacement. */
  method Substitute(parent: Node, item: Node, replacement: Node, ghost s: seq<Node>, ghost k: nat)
    requires Forward(s) && Backward(s) && Distinct(s) && k < |s| && s[k] == item && parent.child == Nth(s, 0)
    requires replacement !in s
    modifies parent`child, replacement`next, replacement`prev, s`next, s`prev
    ensures Forward(s[k := replacement]) && Backward(s[k := replacement]) && parent.child == Nth(s[k := replacement], 0)
    ensures Loose(item)
  {
    replacement.next := item.next;
    replacement.prev := item.prev;
    if replacement.next != null {
      replacement.next.prev := replacement;
    }
    if replacement.prev != null {
      replacement.prev.next := replacement;
    }
    if parent.child == item {
      parent.child := replacement;
    }
    item.next := null;
    item.prev := null;
    Swapped(s, k, replacement);
  }

  /** Insertion and detachment undo each other. */
  lemma DetachUndoesInsert(s: seq<Node>, k: nat, n: Node)
    requires k <= |s|
    ensures Removed(Inserted(s, k, n), k) == s && Inserted(s, k, n)[k] == n
    ensures k < |s| ==> Inserted(Removed(s, k), k, s[k]) == s
  {
    if k < |s| {
      RemovedAndBack(s, k);
    }
  }
}
