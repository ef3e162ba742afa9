// The lookup table of one peer: a linked list of links, newest first, behind a
// dummy head, and the two counters from which the tags of sinks and sources come.
module LinkTable {

  class Link {
    const tag: nat
    const channel: nat
    var next: Link?

    constructor (tag: nat, channel: nat, next: Link?)
      ensures this.tag == tag && this.channel == channel && this.next == next
    {
      this.tag := tag;
      this.channel := channel;
      this.next := next;
    }
  }

  // The tags and channels of a list of links.
  function Entries(nodes: seq<Link>): (e: seq<(nat, nat)>)
    ensures |e| == |nodes| && forall i :: 0 <= i < |nodes| ==> e[i] == (nodes[i].tag, nodes[i].channel)
  {
    seq(|nodes|, i requires 0 <= i < |nodes| => (nodes[i].tag, nodes[i].channel))
  }

  predicate HasTag(entries: seq<(nat, nat)>, tag: nat) {
    exists i :: 0 <= i < |entries| && entries[i].0 == tag
  }

  // The list without the first entry of the tag.
  function Dropped(entries: seq<(nat, nat)>, tag: nat): seq<(nat, nat)> {
    if entries == [] then []
    else if entries[0].0 == tag then entries[1..]
    else [entries[0]] + Dropped(entries[1..], tag)
  }

  lemma {:induction false} DroppedAt(entries: seq<(nat, nat)>, tag: nat, k: nat)
    requires k < |entries| && entries[k].0 == tag
    requires forall i :: 0 <= i < k ==> entries[i].0 != tag
    ensures Dropped(entries, tag) == entries[..k] + entries[k + 1..]
  {
    if k > 0 {
      DroppedAt(entries[1..], tag, k - 1);
      assert entries[..k] == [entries[0]] + entries[1..][..k - 1];
      assert entries[1..][k - 1 + 1..] == entries[k + 1..];
    }
  }

  lemma EntriesOf(nodes: seq<Link>, i: nat, j: nat)
    requires i <= j <= |nodes|
    ensures Entries(nodes[..i] + nodes[j..]) == Entries(nodes)[..i] + Entries(nodes)[j..]
  {
  }

  lemma EntriesTail(nodes: seq<Link>)
    requires nodes != []
    ensures Entries(nodes[1..]) == Entries(nodes)[1..]
  {
  }

  ghost predicate LinkedAt(nodes: seq<Link>, i: nat)
    requires i < |nodes|
    reads nodes[i]
  {
    nodes[i].next == if i + 1 < |nodes| then nodes[i + 1] else null
  }

  ghost predicate Chained(head: Link?, nodes: seq<Link>)
    reads set n | n in nodes
  {
    && (if nodes == [] then head == null else head == nodes[0])
    && (forall i :: 0 <= i < |nodes| ==> LinkedAt(nodes, i))
    && (forall i, j :: 0 <= i < j < |nodes| ==> nodes[i] != nodes[j])
  }

  lemma ChainedTail(head: Link?, nodes: seq<Link>)
    requires Chained(head, nodes) && nodes != []
    ensures Chained(nodes[0].next, nodes[1..])
  {
    assert LinkedAt(nodes, 0);
    forall i | 0 <= i < |nodes| - 1 ensures LinkedAt(nodes[1..], i) {
      assert LinkedAt(nodes, i + 1);
    }
  }

  // Node k has been made to skip its successor.
  lemma Relinked(head: Link?, nodes: seq<Link>, k: nat)
    requires k + 1 < |nodes| && head == nodes[0]
    requires forall i, j :: 0 <= i < j < |nodes| ==> nodes[i] != nodes[j]
    requires forall i :: 0 <= i < |nodes| && i != k ==> LinkedAt(nodes, i)
    requires nodes[k].next == nodes[k + 1].next
    ensures Chained(head, nodes[..k + 1] + nodes[k + 2..])
  {
    var shorter := nodes[..k + 1] + nodes[k + 2..];
    assert LinkedAt(nodes, k + 1);
    forall i | 0 <= i < |shorter| ensures LinkedAt(shorter, i) {
      if i < k {
        assert LinkedAt(nodes, i);
      } else if i > k {
        assert LinkedAt(nodes, i + 1);
      }
    }
  }

  class Hook {
    var head: Link?
    ghost var nodes: seq<Link>

    ghost predicate Valid()
      reads this, set n | n in nodes
    {
      Chained(head, nodes)
    }

    ghost function Contents(): seq<(nat, nat)>
      reads this
    {
      Entries(nodes)
    }

    constructor ()
      ensures Valid() && Contents() == []
    {
      head := null;
      nodes := [];
    }

    // Insertion at the head touches no link already in the list, so a scan that
    // is under way keeps its place.
    method Insert(tag: nat, channel: nat)
      requires Valid()
      modifies this
      ensures Valid() && Contents() == [(tag, channel)] + old(Contents())
      ensures nodes[1..] == old(nodes) && fresh(nodes[0])
    {
      var link := new Link(tag, channel, head);
      ghost var longer := [link] + nodes;
      forall i | 0 <= i < |longer| ensures LinkedAt(longer, i) {
        if i > 0 {
          assert LinkedAt(nodes, i - 1);
        }
      }
      head := link;
      nodes := longer;
    }

    // One scan from a head read earlier, which may by now be an inner node: the
    // first link of the tag at or after it, or null when there is none.
    method Scan(from: Link?, tag: nat, ghost start: nat) returns (found: Link?)
      requires Valid() && start <= |nodes|
      requires from == if start < |nodes| then nodes[start] else null
      ensures found == null <==> !HasTag(Contents()[start..], tag)
      ensures found == null <==> forall k :: start <= k < |nodes| ==> nodes[k].tag != tag
      ensures found != null ==>
        exists k :: (start <= k < |nodes| && nodes[k] == found && found.tag == tag &&
                     forall i :: start <= i < k ==> nodes[i].tag != tag)
    {
      var temp := from;
      ghost var k := start;
      while temp != null
        invariant start <= k <= |nodes| && temp == if k < |nodes| then nodes[k] else null
        invariant forall i :: start <= i < k ==> nodes[i].tag != tag
        decreases |nodes| - k
      {
        assert LinkedAt(nodes, k);
        if temp.tag == tag {
          assert Contents()[start..][k - start].0 == tag;
          return temp;
        }
        temp := temp.next;
        k := k + 1;
      }
      return null;
    }

    // The link before the first one of the tag, which is not at the head.
    method Before(tag: nat) returns (temp: Link, ghost k: nat)
      requires Valid() && HasTag(Contents(), tag) && nodes[0].tag != tag
      ensures k + 1 < |nodes| && temp == nodes[k] && nodes[k + 1].tag == tag
      ensures forall i :: 0 <= i <= k ==> nodes[i].tag != tag
    {
      temp, k := head, 0;
      assert LinkedAt(nodes, 0);
      while temp.next != null && temp.next.tag != tag
        invariant k < |nodes| && temp == nodes[k] && LinkedAt(nodes, k)
        invariant forall i :: 0 <= i <= k ==> nodes[i].tag != tag
        decreases |nodes| - k
      {
        temp := temp.next;
        k := k + 1;
        assert LinkedAt(nodes, k);
      }
    }

    // The link after temp leaves the list.
    method Unlink(temp: Link, ghost k: nat)
      requires Valid() && k + 1 < |nodes| && temp == nodes[k]
      modifies this, temp`next
      ensures Valid() && Contents() == old(Contents())[..k + 1] + old(Contents())[k + 2..]
    {
      ghost var before := nodes;
      assert LinkedAt(nodes, k) && LinkedAt(nodes, k + 1);
      temp.next := temp.next.next;
      assert forall i :: 0 <= i < |before| && i != k ==> LinkedAt(before, i);
      nodes := before[..k + 1] + before[k + 2..];
      Relinked(head, before, k);
      EntriesOf(before, k + 1, k + 2);
    }

    method UnlinkHead()
      requires Valid() && nodes != []
      modifies this
      ensures Valid() && Contents() == old(Contents())[1..]
    {
      ghost var tail := nodes[1..];
      ChainedTail(head, nodes);
      EntriesTail(nodes);
      head := head.next;
      nodes := tail;
    }

    // Removal of a tag, as one atomic step.
    method Remove(tag: nat)
      requires Valid() && HasTag(Contents(), tag)
      modifies this, set n | n in nodes
      ensures Valid() && Contents() == Dropped(old(Contents()), tag)
    {
      if head.tag == tag {
        DroppedAt(Contents(), tag, 0);
        UnlinkHead();
      } else {
        var temp, k := Before(tag);
        DroppedAt(Contents(), tag, k + 1);
        Unlink(temp, k);
      }
    }
  }
}
