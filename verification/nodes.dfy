/** A node loaded in memory: fixed arrays of separators and children that are shifted in place. */
module Nodes {
  import opened Keys
  import opened Trees

  class Node {
    const separators: array<Option<SepRec>>
    const children: array<Option<Address>>
    var changed: bool

    /** The node holds exactly these separators, and these children below and between them.
        Nothing is said about child pointers further right: a merge may leave one behind. */
    ghost predicate Is(seps: seq<SepRec>, kids: seq<Option<Address>>)
      reads separators, children
    {
      SepsAre(seps) && KidsAre(kids) && |kids| == |seps| + 1
    }

    ghost predicate SepsAre(seps: seq<SepRec>)
      reads separators
    {
      && separators.Length == ORDER && |seps| <= ORDER
      && (forall i :: 0 <= i < |seps| ==> separators[i] == Some(seps[i]))
      && (forall i :: |seps| <= i < ORDER ==> separators[i] == None)
    }

    ghost predicate KidsAre(kids: seq<Option<Address>>)
      reads children
    {
      && children.Length == ORDER_CHILD && |kids| <= ORDER_CHILD
      && (forall i :: 0 <= i < |kids| ==> children[i] == kids[i])
    }

    /** Room has been made for a separator at `at`. */
    ghost predicate SepHole(at: nat, seps: seq<SepRec>)
      reads separators
    {
      && separators.Length == ORDER && at <= |seps| < ORDER
      && (forall i :: 0 <= i < at ==> separators[i] == Some(seps[i]))
      && (forall i :: at < i <= |seps| ==> separators[i] == Some(seps[i - 1]))
      && (forall i :: |seps| < i < ORDER ==> separators[i] == None)
    }

    /** Room has been made for a child at `at`. */
    ghost predicate KidHole(at: nat, kids: seq<Option<Address>>)
      reads children
    {
      && children.Length == ORDER_CHILD && at <= |kids| < ORDER_CHILD
      && (forall i :: 0 <= i < at ==> children[i] == kids[i])
      && (forall i :: at < i <= |kids| ==> children[i] == kids[i - 1])
    }

    /** No child pointer anywhere: the node is a leaf. */
    ghost predicate Bare()
      reads children
    {
      children.Length == ORDER_CHILD && forall i :: 0 <= i < ORDER_CHILD ==> children[i] == None
    }

    lemma BareNone(kids: seq<Option<Address>>, hasChild: bool)
      requires KidsAre(kids) && (hasChild || Bare())
      ensures hasChild || AllNone(kids)
    {
    }

    lemma BareKids(kids: seq<Option<Address>>, hasChild: bool)
      requires |kids| <= ORDER_CHILD && (hasChild || (Bare() && AllNone(kids)))
      ensures hasChild || KidsAre(kids)
    {
    }

    constructor Default()
      ensures Is([], [None]) && Bare() && changed
      ensures fresh(separators) && fresh(children)
    {
      separators := new Option<SepRec>[ORDER](_ => None);
      children := new Option<Address>[ORDER_CHILD](_ => None);
      changed := true;
    }

    /** Loads a stored record. */
    constructor FromRecord(seps: seq<SepRec>, kids: seq<Option<Address>>)
      requires |seps| <= ORDER && |kids| == |seps| + 1
      ensures Is(seps, kids) && !changed
      ensures (forall i :: 0 <= i < |kids| ==> kids[i] == None) ==> Bare()
      ensures fresh(separators) && fresh(children)
    {
      separators := new Option<SepRec>[ORDER](_ => None);
      children := new Option<Address>[ORDER_CHILD](_ => None);
      changed := false;
      new;
      var i := 0;
      while true
        invariant 0 <= i <= |seps|
        invariant forall j :: 0 <= j < i ==> separators[j] == Some(seps[j])
        invariant forall j :: i <= j < ORDER ==> separators[j] == None
        invariant forall j :: 0 <= j < i ==> children[j] == kids[j]
        invariant forall j :: i <= j < ORDER_CHILD ==> children[j] == None
        invariant !changed
        decreases |seps| - i
      {
        children[i] := kids[i];
        if i == |seps| {
          break;
        }
        separators[i] := Some(seps[i]);
        i := i + 1;
      }
    }

    predicate HasSeparator(at: nat)
      requires at < separators.Length
      reads separators
    {
      separators[at].Some?
    }

    method NumberSeparator(ghost seps: seq<SepRec>, ghost kids: seq<Option<Address>>) returns (n: nat)
      requires Is(seps, kids)
      ensures n == |seps|
    {
      n := 0;
      while separators[n].Some?
        invariant n <= |seps| && n < ORDER
        decreases ORDER - n
      {
        n := n + 1;
        if n == ORDER {
          break;
        }
      }
    }

    /** Whether the key is a separator, and the index of the first separator not below it. */
    method Position(key: Key, ghost seps: seq<SepRec>, ghost kids: seq<Option<Address>>) returns (at: bool, i: nat)
      requires Is(seps, kids)
      ensures i <= |seps|
      ensures forall j :: 0 <= j < i ==> Less(seps[j].key, key)
      ensures at ==> i < |seps| && seps[i].key == key
      ensures !at && i < |seps| ==> Less(key, seps[i].key)
    {
      i := 0;
      while separators[i].Some?
        invariant i <= |seps| && i < ORDER
        invariant forall j :: 0 <= j < i ==> Less(seps[j].key, key)
        decreases ORDER - i
      {
        var s := separators[i].value.key;
        if Less(key, s) {
          return false, i;
        }
        if key == s {
          return true, i;
        }
        LessTotal(key, s);
        i := i + 1;
        if i == ORDER {
          break;
        }
      }
      at := false;
    }

    method RemoveSeparator(at: nat) returns (sep: Option<SepRec>)
      requires at < separators.Length
      modifies this`changed, separators
      ensures changed && sep == old(separators[at])
      ensures separators[at] == None
      ensures forall i :: 0 <= i < separators.Length && i != at ==> separators[i] == old(separators[i])
    {
      changed := true;
      sep := separators[at];
      separators[at] := None;
    }

    method RemoveChild(at: nat) returns (child: Option<Address>)
      requires at < children.Length
      modifies this`changed, children
      ensures changed && child == old(children[at])
      ensures children[at] == None
      ensures forall i :: 0 <= i < children.Length && i != at ==> children[i] == old(children[i])
    {
      changed := true;
      child := children[at];
      children[at] := None;
    }

    method SetSeparator(at: nat, sep: Option<SepRec>)
      requires at < separators.Length
      modifies this`changed, separators
      ensures changed
      ensures separators[at] == sep
      ensures forall i :: 0 <= i < separators.Length && i != at ==> separators[i] == old(separators[i])
    {
      changed := true;
      separators[at] := sep;
    }

    method SetChild(at: nat, child: Option<Address>)
      requires at < children.Length
      modifies this`changed, children
      ensures changed
      ensures children[at] == child
      ensures forall i :: 0 <= i < children.Length && i != at ==> children[i] == old(children[i])
    {
      changed := true;
      children[at] := child;
    }

    /** Makes room for a separator at `from`, and for a child at its right or left. */
    method ShiftFrom(from: nat, hasChild: bool, withLeftChild: bool,
                     ghost seps: seq<SepRec>, ghost kids: seq<Option<Address>>)
      requires Is(seps, kids) && |seps| < ORDER && from <= |seps|
      requires hasChild ==> forall i :: 0 <= i < |kids| ==> kids[i].Some?
      requires !hasChild ==> Bare()
      modifies this`changed, separators, children
      ensures changed
      ensures SepHole(from, seps)
      ensures KidHole(if withLeftChild then from else from + 1, kids)
      ensures !hasChild ==> Bare()
    {
      changed := true;
      var i := from;
      var current := RemoveSeparator(i);
      while current.Some?
        invariant from <= i <= |seps|
        invariant current == if i < |seps| then Some(seps[i]) else None
        invariant forall j :: 0 <= j < from ==> separators[j] == Some(seps[j])
        invariant separators[from] == None
        invariant forall j :: from < j <= i ==> separators[j] == Some(seps[j - 1])
        invariant forall j :: i < j < |seps| ==> separators[j] == Some(seps[j])
        invariant forall j :: |seps| <= j < ORDER && i < j ==> separators[j] == None
        invariant changed && forall j :: 0 <= j < ORDER_CHILD ==> children[j] == old(children[j])
        decreases |seps| - i
      {
        i := i + 1;
        if i == ORDER {
          break;
        }
        current, separators[i] := separators[i], current;
      }
      if hasChild {
        ShiftChildren(if withLeftChild then from else from + 1, kids);
      }
    }

    method ShiftChildren(first: nat, ghost kids: seq<Option<Address>>)
      requires children.Length == ORDER_CHILD && |kids| < ORDER_CHILD && first <= |kids|
      requires forall i :: 0 <= i < |kids| ==> kids[i].Some? && children[i] == kids[i]
      modifies this`changed, children
      ensures changed
      ensures KidHole(first, kids)
    {
      var i := first;
      var current := RemoveChild(i);
      while current.Some?
        invariant first <= i < ORDER_CHILD
        invariant i < |kids| ==> current == kids[i]
        invariant forall j :: 0 <= j < first ==> children[j] == kids[j]
        invariant forall j :: first < j <= i && j <= |kids| ==> children[j] == kids[j - 1]
        invariant forall j :: i < j < |kids| ==> children[j] == kids[j]
        invariant changed
        decreases ORDER_CHILD - i
      {
        i := i + 1;
        if i == ORDER_CHILD {
          break;
        }
        current, children[i] := children[i], current;
      }
    }

    /** Closes the hole left by a removed separator at `from`, and drops the child at its right or left. */
    method RemoveFrom(from: nat, hasChild: bool, withLeftChild: bool,
                      ghost seps: seq<SepRec>, ghost kids: seq<Option<Address>>)
      requires separators.Length == ORDER && children.Length == ORDER_CHILD
      requires from < |seps| <= ORDER && |kids| == |seps| + 1
      requires forall i :: 0 <= i < |seps| && i != from ==> separators[i] == Some(seps[i])
      requires separators[from] == None
      requires forall i :: |seps| <= i < ORDER ==> separators[i] == None
      requires hasChild ==> var first := if withLeftChild then from else from + 1;
                            forall i :: 0 <= i < |kids| && i != first ==> kids[i].Some? && children[i] == kids[i]
      requires !hasChild ==> Bare() && forall i :: 0 <= i < |kids| ==> kids[i].None?
      modifies this`changed, separators, children
      ensures changed
      ensures SepsAre(Without(seps, from))
      ensures KidsAre(Without(kids, if withLeftChild then from else from + 1))
      ensures !hasChild ==> Bare()
    {
      RemoveSeparatorFrom(from, seps);
      if hasChild {
        RemoveChildFrom(if withLeftChild then from else from + 1, kids);
      }
    }

    method RemoveSeparatorFrom(from: nat, ghost seps: seq<SepRec>)
      requires separators.Length == ORDER && from < |seps| <= ORDER
      requires forall i :: 0 <= i < |seps| && i != from ==> separators[i] == Some(seps[i])
      requires separators[from] == None
      requires forall i :: |seps| <= i < ORDER ==> separators[i] == None
      modifies this`changed, separators
      ensures changed && SepsAre(Without(seps, from))
    {
      var i := from;
      changed := true;
      while i < ORDER - 1
        invariant from <= i < ORDER && i < |seps|
        invariant forall j :: 0 <= j < from ==> separators[j] == Some(seps[j])
        invariant forall j :: from <= j < i ==> separators[j] == Some(seps[j + 1])
        invariant separators[i] == None
        invariant forall j :: i < j < |seps| ==> separators[j] == Some(seps[j])
        invariant forall j :: |seps| <= j < ORDER ==> separators[j] == None
        invariant changed
      {
        var next := RemoveSeparator(i + 1);
        separators[i] := next;
        if separators[i].None? {
          break;
        }
        i := i + 1;
      }
    }

    method RemoveChildFrom(first: nat, ghost kids: seq<Option<Address>>)
      requires children.Length == ORDER_CHILD && first < |kids| <= ORDER_CHILD
      requires forall i :: 0 <= i < |kids| && i != first ==> kids[i].Some? && children[i] == kids[i]
      modifies this`changed, children
      ensures old(changed) ==> changed
      ensures KidsAre(Without(kids, first))
    {
      var i := first;
      while i < ORDER_CHILD - 1
        invariant first <= i < ORDER_CHILD
        invariant forall j :: 0 <= j < first ==> children[j] == kids[j]
        invariant forall j :: first <= j < i && j < |kids| - 1 ==> children[j] == kids[j + 1]
        invariant forall j :: i < j < |kids| ==> children[j] == kids[j]
        invariant old(changed) ==> changed
      {
        var next := RemoveChild(i + 1);
        children[i] := next;
        if children[i].None? {
          break;
        }
        i := i + 1;
      }
    }

    /** Moves the separators from `at` on, with the children right of them, to a new node; a separator
        and a child may be inserted on the way. With `skipLeftChild` the child left of `at` stays. */
    method Split(at: nat, skipLeftChild: bool, insertRight: Option<(nat, SepRec)>,
                 insertRightChild: Option<(nat, Address)>, hasChild: bool,
                 ghost seps: seq<SepRec>, ghost kids: seq<Option<Address>>) returns (right: Node)
      requires Is(seps, kids) && |seps| == ORDER && 0 < at < ORDER
      requires insertRight.Some? ==> at <= insertRight.value.0 <= ORDER
      requires insertRightChild.Some? ==> at <= insertRightChild.value.0 <= ORDER && !skipLeftChild
      requires !hasChild ==> Bare()
      modifies this`changed, separators, children
      ensures changed && right.changed && fresh(right) && fresh(right.separators) && fresh(right.children)
      ensures SepsAre(seps[..at]) && KidsAre(kids[..if skipLeftChild then at + 1 else at])
      ensures right.SepsAre(Moved(seps, at, insertRight))
      ensures !hasChild ==> Bare() && right.Bare()
      ensures hasChild ==> right.KidsAre(MovedKids(kids, at, skipLeftChild, insertRightChild))
    {
      right := new Node.Default();
      SplitSeparators(right, at, insertRight, seps);
      if hasChild {
        SplitChildren(right, at, skipLeftChild, insertRightChild, kids);
      }
    }

    method SplitSeparators(right: Node, at: nat, insertRight: Option<(nat, SepRec)>, ghost seps: seq<SepRec>)
      requires SepsAre(seps) && |seps| == ORDER && 0 < at < ORDER
      requires right.SepsAre([]) && right != this && right.separators != separators
      requires insertRight.Some? ==> at <= insertRight.value.0 <= ORDER
      modifies this`changed, separators, right.separators
      ensures changed && SepsAre(seps[..at])
      ensures right.SepsAre(Moved(seps, at, insertRight))
    {
      var done := false;
      for i := at to ORDER
        invariant i > at ==> changed
        invariant forall j :: 0 <= j < at || i <= j < ORDER ==> separators[j] == Some(seps[j])
        invariant forall j :: at <= j < i ==> separators[j] == None
        invariant done == (insertRight.Some? && insertRight.value.0 < i)
        invariant forall j :: 0 <= j < ORDER ==>
          right.separators[j] ==
            if j + at < (if done then i + 1 else i) then MovedSep(seps, at, insertRight, j) else None
      {
        var sep := RemoveSeparator(i);
        if insertRight.Some? && insertRight.value.0 == i {
          right.separators[i - at] := Some(insertRight.value.1);
          done := true;
        }
        right.separators[i + (if done then 1 else 0) - at] := sep;
      }
      if insertRight.Some? && !done {
        right.separators[insertRight.value.0 - at] := Some(insertRight.value.1);
      }
      MovedSepIs(seps, at, insertRight);
    }

    method SplitChildren(right: Node, at: nat, skipLeftChild: bool, insertRightChild: Option<(nat, Address)>,
                         ghost kids: seq<Option<Address>>)
      requires KidsAre(kids) && |kids| == ORDER_CHILD && 0 < at < ORDER
      requires right.Bare() && right != this && right.children != children
      requires insertRightChild.Some? ==> at <= insertRightChild.value.0 <= ORDER && !skipLeftChild
      modifies this`changed, children, right.children
      ensures old(changed) ==> changed
      ensures KidsAre(kids[..if skipLeftChild then at + 1 else at])
      ensures right.KidsAre(MovedKids(kids, at, skipLeftChild, insertRightChild))
    {
      var start := if skipLeftChild then at + 1 else at;
      var done := false;
      for i := start to ORDER_CHILD
        invariant old(changed) ==> changed
        invariant forall j :: 0 <= j < start || i <= j < ORDER_CHILD ==> children[j] == kids[j]
        invariant done == (insertRightChild.Some? && insertRightChild.value.0 + 1 < i)
        invariant forall j :: 0 <= j < ORDER_CHILD ==>
          right.children[j] ==
            if j + at < (if done then i + 1 else i) then MovedKid(kids, at, skipLeftChild, insertRightChild, j)
            else None
      {
        var child := RemoveChild(i);
        if insertRightChild.Some? && insertRightChild.value.0 + 1 == i {
          done := true;
          right.children[i - at] := Some(insertRightChild.value.1);
        }
        right.children[i + (if done then 1 else 0) - at] := child;
      }
      if insertRightChild.Some? && !done {
        right.children[insertRightChild.value.0 + 1 - at] := Some(insertRightChild.value.1);
      }
      MovedKidIs(kids, at, skipLeftChild, insertRightChild);
    }

    /** Inserts into a node that has room. */
    method InsertRoom(at: nat, sep: SepRec, child: Option<Address>, hasChild: bool,
                      ghost seps: seq<SepRec>, ghost kids: seq<Option<Address>>)
      requires Is(seps, kids) && at <= |seps| < ORDER
      requires hasChild ==> child.Some? && forall i :: 0 <= i < |kids| ==> kids[i].Some?
      requires !hasChild ==> child.None? && Bare()
      modifies this`changed, separators, children
      ensures changed && (!hasChild ==> Bare())
      ensures Is(Spliced(seps, at, sep), Spliced(kids, at + 1, child))
    {
      ShiftFrom(at, hasChild, false, seps, kids);
      FillSeparator(at, sep, seps);
      FillChild(at + 1, child, hasChild, kids);
    }

    method FillSeparator(at: nat, sep: SepRec, ghost seps: seq<SepRec>)
      requires SepHole(at, seps)
      modifies this`changed, separators
      ensures changed && SepsAre(Spliced(seps, at, sep))
    {
      SetSeparator(at, Some(sep));
    }

    method FillChild(at: nat, child: Option<Address>, hasChild: bool, ghost kids: seq<Option<Address>>)
      requires KidHole(at, kids)
      requires !hasChild ==> child.None? && Bare()
      modifies this`changed, children
      ensures old(changed) ==> changed
      ensures KidsAre(Spliced(kids, at, child)) && (!hasChild ==> Bare())
    {
      if hasChild {
        SetChild(at, child);
      }
    }

    /** Inserts a separator and the child right of it. A full node keeps the four smallest separators,
        hands the fifth up and moves the rest to a new right sibling. */
    method InsertNode(at: nat, sep: SepRec, child: Option<Address>, hasChild: bool,
                      ghost seps: seq<SepRec>, ghost kids: seq<Option<Address>>)
      returns (up: Option<SepRec>, right: Node?)
      requires Is(seps, kids) && at <= |seps|
      requires hasChild ==> child.Some? && forall i :: 0 <= i < |kids| ==> kids[i].Some?
      requires !hasChild ==> child.None? && Bare()
      modifies this`changed, separators, children
      ensures changed && (!hasChild ==> Bare())
      ensures up.Some? <==> |seps| == ORDER
      ensures var s, k := Spliced(seps, at, sep), Spliced(kids, at + 1, child);
              if up.None? then Is(s, k)
              else && right != null && Divided(right, up, s, k) && right.changed && (!hasChild ==> right.Bare())
                   && fresh(right) && fresh(right.separators) && fresh(right.children)
    {
      var full := HasSeparator(ORDER - 1);
      hide SepsAre, KidsAre, Bare, Spliced;
      if !full {
        InsertRoom(at, sep, child, hasChild, seps, kids);
        return None, null;
      }
      if at == MIDDLE {
        up, right := SplitEqual(sep, child, hasChild, seps, kids);
      } else if at < MIDDLE {
        up, right := SplitLess(at, sep, child, hasChild, seps, kids);
      } else {
        up, right := SplitGreater(at, sep, child, hasChild, seps, kids);
      }
    }

    /** This node, `up` and `right` share out the separators `s` and children `k`, four separators each side. */
    ghost predicate Divided(right: Node, up: Option<SepRec>, s: seq<SepRec>, k: seq<Option<Address>>)
      requires |s| == ORDER + 1 && |k| == ORDER + 2
      reads separators, children, right.separators, right.children
    {
      Is(s[..MIDDLE], k[..MIDDLE + 1]) && up == Some(s[MIDDLE]) && right.Is(s[MIDDLE + 1..], k[MIDDLE + 1..])
    }

    method SplitEqual(sep: SepRec, child: Option<Address>, hasChild: bool,
                      ghost seps: seq<SepRec>, ghost kids: seq<Option<Address>>)
      returns (up: Option<SepRec>, right: Node)
      requires Is(seps, kids) && |seps| == ORDER
      requires hasChild ==> child.Some?
      requires !hasChild ==> child.None? && Bare()
      modifies this`changed, separators, children
      ensures changed && (!hasChild ==> Bare() && right.Bare())
      ensures fresh(right) && fresh(right.separators) && fresh(right.children) && right.changed
      ensures Divided(right, up, Spliced(seps, MIDDLE, sep), Spliced(kids, MIDDLE + 1, child))
    {
      hide SepsAre, Spliced;
      right := Split(MIDDLE, true, None, None, hasChild, seps, kids);
      if hasChild {
        right.SetChild(0, child);
      }
      up := Some(sep);
      SplicedSlices(seps, MIDDLE, sep);
      SplicedSlices(kids, MIDDLE + 1, child);
      assert right.KidsAre([child] + kids[MIDDLE + 1..]);
    }

    method SplitLess(at: nat, sep: SepRec, child: Option<Address>, hasChild: bool,
                     ghost seps: seq<SepRec>, ghost kids: seq<Option<Address>>)
      returns (up: Option<SepRec>, right: Node)
      requires Is(seps, kids) && |seps| == ORDER && at < MIDDLE
      requires hasChild ==> child.Some? && forall i :: 0 <= i < |kids| ==> kids[i].Some?
      requires !hasChild ==> child.None? && Bare()
      modifies this`changed, separators, children
      ensures changed && (!hasChild ==> Bare() && right.Bare())
      ensures fresh(right) && fresh(right.separators) && fresh(right.children) && right.changed
      ensures Divided(right, up, Spliced(seps, at, sep), Spliced(kids, at + 1, child))
    {
      hide SepsAre, KidsAre, Bare, Spliced;
      BareNone(kids, hasChild);
      right := Split(MIDDLE, false, None, None, hasChild, seps, kids);
      right.BareKids(kids[MIDDLE..], hasChild);
      up := DropSeparator(MIDDLE - 1, seps[..MIDDLE]);
      assert seps[..MIDDLE][..MIDDLE - 1] == seps[..MIDDLE - 1];
      InsertRoom(at, sep, child, hasChild, seps[..MIDDLE - 1], kids[..MIDDLE]);
      SplicedBefore(seps, at, sep, MIDDLE - 1);
      SplicedBefore(kids, at + 1, child, MIDDLE);
    }

    method SplitGreater(at: nat, sep: SepRec, child: Option<Address>, hasChild: bool,
                        ghost seps: seq<SepRec>, ghost kids: seq<Option<Address>>)
      returns (up: Option<SepRec>, right: Node)
      requires Is(seps, kids) && |seps| == ORDER && MIDDLE < at <= ORDER
      requires hasChild ==> child.Some?
      requires !hasChild ==> child.None? && Bare()
      modifies this`changed, separators, children
      ensures changed && (!hasChild ==> Bare() && right.Bare())
      ensures fresh(right) && fresh(right.separators) && fresh(right.children) && right.changed
      ensures Divided(right, up, Spliced(seps, at, sep), Spliced(kids, at + 1, child))
    {
      hide SepsAre, KidsAre, Bare, Spliced, Moved, MovedKids, AllNone;
      BareNone(kids, hasChild);
      MovedAfter(seps, kids, at, sep, child, hasChild);
      var insertChild := if hasChild then Some((at, child.value)) else None;
      right := Split(MIDDLE + 1, false, Some((at, sep)), insertChild, hasChild, seps, kids);
      right.BareKids(Spliced(kids, at + 1, child)[MIDDLE + 1..], hasChild);
      up := DropSeparator(MIDDLE, seps[..MIDDLE + 1]);
      assert seps[..MIDDLE + 1][..MIDDLE] == seps[..MIDDLE];
      SplicedAfter(seps, at, sep, MIDDLE + 1);
      SplicedAfter(kids, at + 1, child, MIDDLE + 1);
    }

    method DropSeparator(last: nat, ghost seps: seq<SepRec>) returns (sep: Option<SepRec>)
      requires SepsAre(seps) && |seps| == last + 1
      modifies this`changed, separators
      ensures changed && SepsAre(seps[..last]) && sep == Some(seps[last])
    {
      sep := RemoveSeparator(last);
    }

    /** The record `FromRecord` would load this node from. */
    method ToRecord(ghost seps: seq<SepRec>, ghost kids: seq<Option<Address>>) returns (record: Blob)
      requires Is(seps, kids)
      ensures record == NodeBlob(seps, kids)
    {
      var s, k := [], [];
      while true
        invariant |s| <= |seps| && s == seps[..|s|] && k == kids[..|s|]
        decreases |seps| - |s|
      {
        k := k + [children[|s|]];
        if |k| == ORDER_CHILD || separators[|s|].None? {
          break;
        }
        s := s + [separators[|s|].value];
      }
      return NodeBlob(s, k);
    }

    /** What is left of a node whose first `r` separators and children were taken away. */
    ghost predicate Rest(r: nat, seps: seq<SepRec>, kids: seq<Option<Address>>)
      requires r <= |seps|
      reads separators, children
    {
      && separators.Length == ORDER && children.Length == ORDER_CHILD
      && |seps| <= ORDER && |kids| == |seps| + 1
      && (forall i :: 0 <= i < r || |seps| <= i < ORDER ==> separators[i] == None)
      && (forall i :: r <= i < |seps| ==> separators[i] == Some(seps[i]))
      && (forall i :: 0 <= i < r ==> children[i] == None)
      && (forall i :: r <= i < |kids| ==> children[i] == kids[i])
    }

    method TakeAt(r: nat, hasChild: bool, ghost seps: seq<SepRec>, ghost kids: seq<Option<Address>>)
      returns (sep: SepRec, child: Option<Address>)
      requires r < |seps| && Rest(r, seps, kids)
      requires !hasChild ==> Bare()
      modifies this`changed, separators, children
      ensures changed && Rest(r + 1, seps, kids) && (!hasChild ==> Bare())
      ensures sep == seps[r] && child == kids[r]
    {
      child := None;
      if hasChild {
        child := RemoveChild(r);
      }
      var s := RemoveSeparator(r);
      sep := s.value;
    }

    method PushSeparator(at: nat, sep: SepRec, ghost seps: seq<SepRec>, ghost kids: seq<Option<Address>>)
      requires SepsAre(seps) && KidsAre(kids) && at == |seps| < ORDER
      modifies this`changed, separators
      ensures changed && SepsAre(seps + [sep]) && KidsAre(kids)
    {
      SetSeparator(at, Some(sep));
    }

    method PushChild(at: nat, child: Option<Address>, ghost seps: seq<SepRec>, ghost kids: seq<Option<Address>>)
      requires SepsAre(seps) && KidsAre(kids) && at == |kids| < ORDER_CHILD
      modifies this`changed, children
      ensures changed && SepsAre(seps) && KidsAre(kids + [child])
    {
      SetChild(at, child);
    }

    method Exchange(at: nat, sep: SepRec, ghost seps: seq<SepRec>, ghost kids: seq<Option<Address>>)
      returns (previous: SepRec)
      requires Is(seps, kids) && at < |seps|
      modifies this`changed, separators
      ensures changed && Is(seps[at := sep], kids) && previous == seps[at]
    {
      var s := RemoveSeparator(at);
      SetSeparator(at, Some(sep));
      previous := s.value;
    }

    method TakeLast(hasChild: bool, ghost seps: seq<SepRec>, ghost kids: seq<Option<Address>>)
      returns (sep: SepRec, child: Option<Address>)
      requires Is(seps, kids) && 0 < |seps|
      requires !hasChild ==> Bare()
      modifies this`changed, separators, children
      ensures changed && Is(seps[..|seps| - 1], kids[..|seps|]) && (!hasChild ==> Bare())
      ensures sep == seps[|seps| - 1] && child == kids[|seps|]
    {
      var last := NumberSeparator(seps, kids);
      last := last - 1;
      child := None;
      if hasChild {
        child := RemoveChild(last + 1);
      }
      var s := RemoveSeparator(last);
      sep := s.value;
    }

    method TakeFirst(hasChild: bool, ghost seps: seq<SepRec>, ghost kids: seq<Option<Address>>)
      returns (sep: SepRec, child: Option<Address>)
      requires Is(seps, kids) && 0 < |seps|
      requires hasChild ==> forall i :: 0 <= i < |kids| ==> kids[i].Some?
      requires !hasChild ==> Bare()
      modifies this`changed, separators, children
      ensures changed && Is(seps[1..], kids[1..]) && (!hasChild ==> Bare())
      ensures sep == seps[0] && child == kids[0]
    {
      child := None;
      if hasChild {
        child := RemoveChild(0);
      }
      var s := RemoveSeparator(0);
      sep := s.value;
      RemoveFrom(0, hasChild, true, seps, kids);
      assert Without(seps, 0) == seps[1..] && Without(kids, 0) == kids[1..];
    }

    method PutFirst(sep: SepRec, child: Option<Address>, hasChild: bool,
                    ghost seps: seq<SepRec>, ghost kids: seq<Option<Address>>)
      requires Is(seps, kids) && |seps| < ORDER
      requires hasChild ==> forall i :: 0 <= i < |kids| ==> kids[i].Some?
      requires !hasChild ==> child.None? && Bare()
      modifies this`changed, separators, children
      ensures changed && Is([sep] + seps, [child] + kids) && (!hasChild ==> Bare())
    {
      ShiftFrom(0, hasChild, true, seps, kids);
      FillChild(0, child, hasChild, kids);
      FillSeparator(0, sep, seps);
      assert Spliced(seps, 0, sep) == [sep] + seps && Spliced(kids, 0, child) == [child] + kids;
    }
  }

  function Spliced<T>(s: seq<T>, i: nat, x: T): (r: seq<T>)
    requires i <= |s|
    ensures |r| == |s| + 1
  {
    s[..i] + [x] + s[i..]
  }

  function Without<T>(s: seq<T>, i: nat): (r: seq<T>)
    requires i < |s|
    ensures |r| == |s| - 1
  {
    s[..i] + s[i + 1..]
  }

  lemma SplicedSlices<T>(s: seq<T>, i: nat, x: T)
    requires i <= |s|
    ensures Spliced(s, i, x)[..i] == s[..i] && Spliced(s, i, x)[i] == x
    ensures Spliced(s, i, x)[i..] == [x] + s[i..] && Spliced(s, i, x)[i + 1..] == s[i..]
  {
  }

  lemma SplicedBefore<T>(s: seq<T>, i: nat, x: T, cut: nat)
    requires i <= cut < |s|
    ensures Spliced(s, i, x)[..cut + 1] == Spliced(s[..cut], i, x)
    ensures Spliced(s, i, x)[cut + 1] == s[cut] && Spliced(s, i, x)[cut + 1..] == s[cut..]
    ensures Spliced(s, i, x)[cut + 2..] == s[cut + 1..]
  {
  }

  lemma SplicedAfter<T>(s: seq<T>, i: nat, x: T, cut: nat)
    requires 0 < cut <= i <= |s|
    ensures Spliced(s, i, x)[..cut] == s[..cut] && Spliced(s, i, x)[..cut - 1] == s[..cut - 1]
    ensures Spliced(s, i, x)[cut - 1] == s[cut - 1]
    ensures Spliced(s, i, x)[cut..] == s[cut..i] + [x] + s[i..]
  {
  }

  /** What moves to the right half is the end of the whole with the separator and its child put in. */
  lemma MovedAfter(seps: seq<SepRec>, kids: seq<Option<Address>>, at: nat, sep: SepRec, child: Option<Address>,
                   hasChild: bool)
    requires |seps| == ORDER && |kids| == ORDER + 1 && MIDDLE < at <= ORDER
    requires if hasChild then child.Some? else child.None? && AllNone(kids)
    ensures Moved(seps, MIDDLE + 1, Some((at, sep))) == Spliced(seps, at, sep)[MIDDLE + 1..]
    ensures hasChild ==>
      MovedKids(kids, MIDDLE + 1, false, Some((at, child.value))) == Spliced(kids, at + 1, child)[MIDDLE + 1..]
    ensures !hasChild ==> AllNone(Spliced(kids, at + 1, child)[MIDDLE + 1..])
  {
    hide Spliced;
    SplicedAfter(seps, at, sep, MIDDLE + 1);
    SplicedAfter(kids, at + 1, child, MIDDLE + 1);
  }

  ghost predicate AllNone(kids: seq<Option<Address>>) {
    forall i :: 0 <= i < |kids| ==> kids[i] == None
  }

  ghost predicate Apart(a: Node, b: Node) {
    a != b && a.separators != b.separators && a.children != b.children
  }

  /** Moves the last separator of the left child up and the one between them down to the right child. */
  method BorrowLeft(self: Node, left: Node, right: Node, at: nat, hasChild: bool,
                    ghost ss: seq<SepRec>, ghost ks: seq<Option<Address>>,
                    ghost sl: seq<SepRec>, ghost kl: seq<Option<Address>>,
                    ghost sr: seq<SepRec>, ghost kr: seq<Option<Address>>)
    requires self.Is(ss, ks) && left.Is(sl, kl) && right.Is(sr, kr)
    requires Apart(self, left) && Apart(self, right) && Apart(left, right)
    requires 0 < at <= |ss| && 0 < |sl| && |sr| < ORDER
    requires hasChild ==> kl[|sl|].Some? && forall i :: 0 <= i < |kr| ==> kr[i].Some?
    requires !hasChild ==> left.Bare() && right.Bare()
    modifies self`changed, self.separators, left`changed, left.separators, left.children
    modifies right`changed, right.separators, right.children
    ensures self.changed && left.changed && right.changed
    ensures self.Is(ss[at - 1 := sl[|sl| - 1]], ks)
    ensures left.Is(sl[..|sl| - 1], kl[..|sl|])
    ensures right.Is([ss[at - 1]] + sr, [kl[|sl|]] + kr)
    ensures !hasChild ==> left.Bare() && right.Bare()
  {
    var separator2, child := left.TakeLast(hasChild, sl, kl);
    var separator := self.Exchange(at - 1, separator2, ss, ks);
    right.PutFirst(separator, child, hasChild, sr, kr);
  }

  /** Moves the first separator of the right child up and the one between them down to the left child. */
  method BorrowRight(self: Node, left: Node, right: Node, at: nat, hasChild: bool,
                     ghost ss: seq<SepRec>, ghost ks: seq<Option<Address>>,
                     ghost sl: seq<SepRec>, ghost kl: seq<Option<Address>>,
                     ghost sr: seq<SepRec>, ghost kr: seq<Option<Address>>)
    requires self.Is(ss, ks) && left.Is(sl, kl) && right.Is(sr, kr)
    requires Apart(self, left) && Apart(self, right) && Apart(left, right)
    requires at < |ss| && 0 < |sr| && |sl| < ORDER
    requires hasChild ==> forall i :: 0 <= i < |kr| ==> kr[i].Some?
    requires !hasChild ==> left.Bare() && right.Bare()
    modifies self`changed, self.separators, left`changed, left.separators, left.children
    modifies right`changed, right.separators, right.children
    ensures self.changed && left.changed && right.changed
    ensures self.Is(ss[at := sr[0]], ks)
    ensures left.Is(sl + [ss[at]], kl + [kr[0]])
    ensures right.Is(sr[1..], kr[1..])
    ensures !hasChild ==> left.Bare() && right.Bare()
  {
    var separator2, child := right.TakeFirst(hasChild, sr, kr);
    var separator := self.Exchange(at, separator2, ss, ks);
    var lastLeft := left.NumberSeparator(sl, kl);
    left.PushSeparator(lastLeft, separator, sl, kl);
    if hasChild {
      left.PushChild(lastLeft + 1, child, sl + [separator], kl);
    }
  }

  /** Appends the separator between two siblings and the whole right sibling to the left one. */
  method MergeInto(left: Node, right: Node, separator: SepRec, hasChild: bool,
                   ghost sl: seq<SepRec>, ghost kl: seq<Option<Address>>,
                   ghost sr: seq<SepRec>, ghost kr: seq<Option<Address>>)
    requires left.Is(sl, kl) && right.Is(sr, kr) && Apart(left, right)
    requires 0 < |sr| && |sl| + 1 + |sr| <= ORDER
    requires !hasChild ==> left.Bare() && right.Bare()
    modifies left`changed, left.separators, left.children, right`changed, right.separators, right.children
    ensures left.changed && right.changed
    ensures left.Is(sl + [separator] + sr, kl + kr)
    ensures !hasChild ==> left.Bare()
    ensures right.Is([], [None])
  {
    var i := left.NumberSeparator(sl, kl);
    left.PushSeparator(i, separator, sl, kl);
    var r;
    i, r := MergeItems(left, right, i + 1, hasChild, sl + [separator], kl, sr, kr);
    if hasChild {
      var child := right.RemoveChild(r);
      left.PushChild(i, child, sl + [separator] + sr, kl + kr[..r]);
      assert kl + kr == kl + kr[..r] + [kr[r]];
    }
  }

  method MergeItems(left: Node, right: Node, start: nat, hasChild: bool,
                    ghost sl: seq<SepRec>, ghost kl: seq<Option<Address>>,
                    ghost sr: seq<SepRec>, ghost kr: seq<Option<Address>>) returns (i: nat, r: nat)
    requires left.SepsAre(sl) && left.KidsAre(kl) && right.Is(sr, kr) && Apart(left, right)
    requires 0 < |sr| && start == |sl| == |kl| && |sl| + |sr| <= ORDER
    requires !hasChild ==> left.Bare() && right.Bare()
    modifies left`changed, left.separators, left.children, right`changed, right.separators, right.children
    ensures left.changed && right.changed && r == |sr| && i == |sl| + |sr|
    ensures right.Rest(r, sr, kr) && left.SepsAre(sl + sr) && left.KidsAre(kl + kr[..r])
    ensures !hasChild ==> left.Bare() && right.Bare()
  {
    var rightLen := right.NumberSeparator(sr, kr);
    i, r := start, 0;
    assert sl + sr[..0] == sl && kl + kr[..0] == kl;
    while r < rightLen
      invariant 0 <= r <= |sr| && i == |sl| + r && (r > 0 ==> left.changed && right.changed)
      invariant left.SepsAre(sl + sr[..r]) && left.KidsAre(kl + kr[..r]) && right.Rest(r, sr, kr)
      invariant !hasChild ==> left.Bare() && right.Bare()
    {
      MergeStep(left, right, i, r, hasChild, sl, kl, sr, kr);
      i := i + 1;
      r := r + 1;
    }
    assert sr[..r] == sr;
  }

  method MergeStep(left: Node, right: Node, i: nat, r: nat, hasChild: bool,
                   ghost sl: seq<SepRec>, ghost kl: seq<Option<Address>>,
                   ghost sr: seq<SepRec>, ghost kr: seq<Option<Address>>)
    requires r < |sr| && |sl| == |kl| && i == |sl| + r < ORDER && Apart(left, right)
    requires right.Rest(r, sr, kr) && left.SepsAre(sl + sr[..r]) && left.KidsAre(kl + kr[..r])
    requires !hasChild ==> left.Bare() && right.Bare()
    modifies left`changed, left.separators, left.children, right`changed, right.separators, right.children
    ensures left.changed && right.changed
    ensures right.Rest(r + 1, sr, kr) && left.SepsAre(sl + sr[..r + 1]) && left.KidsAre(kl + kr[..r + 1])
    ensures !hasChild ==> left.Bare() && right.Bare()
  {
    var sep, child := right.TakeAt(r, hasChild, sr, kr);
    left.PushSeparator(i, sep, sl + sr[..r], kl + kr[..r]);
    assert sl + sr[..r + 1] == sl + sr[..r] + [sep];
    if hasChild {
      left.PushChild(i, child, sl + sr[..r + 1], kl + kr[..r]);
      assert kl + kr[..r + 1] == kl + kr[..r] + [child];
    }
  }

  /** The separators of the new right node: those from `at` on, with the inserted one among them. */
  function Moved(seps: seq<SepRec>, at: nat, ins: Option<(nat, SepRec)>): seq<SepRec>
    requires at <= |seps| && (ins.Some? ==> at <= ins.value.0 <= |seps|)
  {
    if ins.None? then seps[at..] else seps[at..ins.value.0] + [ins.value.1] + seps[ins.value.0..]
  }

  /** Its children; the inserted one goes right of the inserted separator. */
  function MovedKids(kids: seq<Option<Address>>, at: nat, skip: bool, ins: Option<(nat, Address)>): seq<Option<Address>>
    requires at < |kids| && (ins.Some? ==> at <= ins.value.0 < |kids|)
  {
    if ins.Some? then kids[at..ins.value.0 + 1] + [Some(ins.value.1)] + kids[ins.value.0 + 1..]
    else if skip then [None] + kids[at + 1..]
    else kids[at..]
  }

  function MovedSep(s: seq<SepRec>, at: nat, ins: Option<(nat, SepRec)>, j: nat): Option<SepRec>
    requires |s| == ORDER
  {
    if ins.None? || j + at < ins.value.0 then (if j + at < ORDER then Some(s[j + at]) else None)
    else if j + at == ins.value.0 then Some(ins.value.1)
    else if j + at <= ORDER then Some(s[j + at - 1]) else None
  }

  function MovedKid(s: seq<Option<Address>>, at: nat, skip: bool, ins: Option<(nat, Address)>, j: nat): Option<Address>
    requires |s| == ORDER_CHILD
  {
    if j == 0 && skip then None
    else if ins.None? || j + at < ins.value.0 + 1 then (if j + at < ORDER_CHILD then s[j + at] else None)
    else if j + at == ins.value.0 + 1 then Some(ins.value.1)
    else if j + at <= ORDER_CHILD then s[j + at - 1] else None
  }

  lemma MovedSepIs(s: seq<SepRec>, at: nat, ins: Option<(nat, SepRec)>)
    requires |s| == ORDER && 0 < at < ORDER && (ins.Some? ==> at <= ins.value.0 <= ORDER)
    ensures |Moved(s, at, ins)| <= ORDER
    ensures forall j :: 0 <= j < |Moved(s, at, ins)| ==> MovedSep(s, at, ins, j) == Some(Moved(s, at, ins)[j])
    ensures forall j :: |Moved(s, at, ins)| <= j < ORDER ==> MovedSep(s, at, ins, j) == None
  {
  }

  lemma MovedKidIs(s: seq<Option<Address>>, at: nat, skip: bool, ins: Option<(nat, Address)>)
    requires |s| == ORDER_CHILD && 0 < at < ORDER && (ins.Some? ==> at <= ins.value.0 <= ORDER && !skip)
    ensures |MovedKids(s, at, skip, ins)| <= ORDER_CHILD
    ensures forall j :: 0 <= j < |MovedKids(s, at, skip, ins)| ==>
      MovedKid(s, at, skip, ins, j) == MovedKids(s, at, skip, ins)[j]
  {
    var r := MovedKids(s, at, skip, ins);
    if ins.Some? {
      var i := ins.value.0;
      assert r == s[at..i + 1] + [Some(ins.value.1)] + s[i + 1..];
    } else if skip {
      assert r == [None] + s[at + 1..];
    } else {
      assert r == s[at..];
    }
  }
}
