// Tags of branching channels. Each process numbers the links to each peer from
// two counters, one for its sinks and one for its sources; nothing about a tag is
// ever sent to the peer. The two ends of a channel find each other because both
// create their channels in the same order.
module ChannelTags {

  // The creation of one end of a channel: the consumers of a sink, or the
  // producers of a source.
  datatype Creation = Creation(chan: nat, isSink: bool, peers: seq<nat>)

  // The channels of a list entry for q, one per listing.
  function Listings(chan: nat, peers: seq<nat>, q: nat): seq<nat> {
    if peers == [] then []
    else Listings(chan, peers[..|peers| - 1], q) + if peers[|peers| - 1] == q then [chan] else []
  }

  // The channels of all sinks to q, or of all sources from q, in creation order.
  function Links(h: seq<Creation>, isSink: bool, q: nat): seq<nat> {
    if h == [] then []
    else
      var c := h[|h| - 1];
      Links(h[..|h| - 1], isSink, q) + if c.isSink == isSink then Listings(c.chan, c.peers, q) else []
  }

  // The tag of the i-th link of channel end c, created after history h.
  function TagOf(h: seq<Creation>, c: Creation, i: nat): nat
    requires i < |c.peers|
  {
    |Links(h, c.isSink, c.peers[i])| + |Listings(c.chan, c.peers[..i], c.peers[i])|
  }

  lemma LinksAppend(h: seq<Creation>, c: Creation, isSink: bool, q: nat)
    ensures Links(h + [c], isSink, q)
            == Links(h, isSink, q) + if c.isSink == isSink then Listings(c.chan, c.peers, q) else []
  {
    assert (h + [c])[..|h + [c]| - 1] == h;
  }

  lemma ListingsAppend(chan: nat, peers: seq<nat>, i: nat, q: nat)
    requires i < |peers|
    ensures Listings(chan, peers[..i + 1], q)
            == Listings(chan, peers[..i], q) + if peers[i] == q then [chan] else []
  {
    assert peers[..i + 1][..i] == peers[..i];
  }

  // A peer has as many listings as it is listed.
  lemma {:induction false} ListingsCount(chan: nat, peers: seq<nat>, q: nat)
    ensures |Listings(chan, peers, q)| == multiset(peers)[q]
  {
    if peers != [] {
      ListingsCount(chan, peers[..|peers| - 1], q);
      assert peers == peers[..|peers| - 1] + [peers[|peers| - 1]];
    }
  }

  // The next tag of a peer is the number of links of the kind created to it before,
  // earlier listings in the same channel included.
  lemma TagCounts(h: seq<Creation>, c: Creation, i: nat)
    requires i < |c.peers|
    ensures TagOf(h, c, i) == |Links(h, c.isSink, c.peers[i])| + multiset(c.peers[..i])[c.peers[i]]
  {
    ListingsCount(c.chan, c.peers[..i], c.peers[i]);
  }

  lemma LinksCount(h: seq<Creation>, c: Creation, isSink: bool, q: nat)
    ensures Links([], isSink, q) == []
    ensures |Links(h + [c], isSink, q)|
            == |Links(h, isSink, q)| + if c.isSink == isSink then multiset(c.peers)[q] else 0
  {
    LinksAppend(h, c, isSink, q);
    ListingsCount(c.chan, c.peers, q);
  }

  class TagTable {
    const srcTag: array<nat>
    const sinkTag: array<nat>
    ghost var history: seq<Creation>

    ghost predicate Valid()
      reads this, srcTag, sinkTag
    {
      && srcTag != sinkTag && srcTag.Length == sinkTag.Length
      && (forall q :: 0 <= q < srcTag.Length ==> srcTag[q] == |Links(history, false, q)|)
      && (forall q :: 0 <= q < sinkTag.Length ==> sinkTag[q] == |Links(history, true, q)|)
    }

    constructor (size: nat)
      ensures Valid() && history == [] && srcTag.Length == size && fresh(srcTag) && fresh(sinkTag)
    {
      srcTag := new nat[size](_ => 0);
      sinkTag := new nat[size](_ => 0);
      history := [];
    }

    // The counter of each listed peer hands out its next value.
    method Allocate(counter: array<nat>, c: Creation) returns (tags: array<nat>)
      requires Valid() && counter == (if c.isSink then sinkTag else srcTag)
      requires forall i :: 0 <= i < |c.peers| ==> c.peers[i] < counter.Length
      modifies counter
      ensures fresh(tags) && tags.Length == |c.peers|
      ensures forall i :: 0 <= i < |c.peers| ==> tags[i] == TagOf(history, c, i)
      ensures forall q :: 0 <= q < counter.Length ==>
        counter[q] == old(counter[q]) + |Listings(c.chan, c.peers, q)|
    {
      tags := new nat[|c.peers|];
      for i := 0 to |c.peers|
        invariant forall k :: 0 <= k < i ==> tags[k] == TagOf(history, c, k)
        invariant forall q :: 0 <= q < counter.Length ==>
          counter[q] == old(counter[q]) + |Listings(c.chan, c.peers[..i], q)|
      {
        forall q | 0 <= q < counter.Length
          ensures |Listings(c.chan, c.peers[..i + 1], q)|
                  == |Listings(c.chan, c.peers[..i], q)| + if c.peers[i] == q then 1 else 0
        {
          ListingsAppend(c.chan, c.peers, i, q);
        }
        tags[i] := counter[c.peers[i]];
        counter[c.peers[i]] := counter[c.peers[i]] + 1;
      }
      assert c.peers[..|c.peers|] == c.peers;
    }

    method Create(c: Creation) returns (tags: array<nat>)
      requires Valid() && forall i :: 0 <= i < |c.peers| ==> c.peers[i] < srcTag.Length
      modifies this, srcTag, sinkTag
      ensures Valid() && history == old(history) + [c]
      ensures fresh(tags) && tags.Length == |c.peers|
      ensures forall i :: 0 <= i < |c.peers| ==> tags[i] == TagOf(old(history), c, i)
    {
      if c.isSink {
        tags := Allocate(sinkTag, c);
      } else {
        tags := Allocate(srcTag, c);
      }
      forall q, isSink | 0 <= q < srcTag.Length
        ensures |Links(history + [c], isSink, q)|
                == |Links(history, isSink, q)| + if c.isSink == isSink then |Listings(c.chan, c.peers, q)| else 0
      {
        LinksAppend(history, c, isSink, q);
      }
      history := history + [c];
    }
  }

  // Link i of channel end k in history h goes to q and carries tag t.
  ghost predicate Carries(h: seq<Creation>, isSink: bool, q: nat, k: nat, i: nat, t: nat) {
    && k < |h| && h[k].isSink == isSink && i < |h[k].peers| && h[k].peers[i] == q
    && t == TagOf(h[..k], h[k], i)
  }

  lemma {:induction false} ListingsAre(chan: nat, peers: seq<nat>, q: nat, i: nat)
    requires i < |peers| && peers[i] == q
    ensures |Listings(chan, peers[..i], q)| < |Listings(chan, peers, q)|
    ensures forall j :: 0 <= j < |Listings(chan, peers, q)| ==> Listings(chan, peers, q)[j] == chan
    decreases |peers|
  {
    var front := peers[..|peers| - 1];
    if i < |peers| - 1 {
      ListingsAre(chan, front, q, i);
      assert front[..i] == peers[..i];
    } else {
      OnlyChannel(chan, front, q);
    }
  }

  lemma {:induction false} OnlyChannel(chan: nat, peers: seq<nat>, q: nat)
    ensures forall j :: 0 <= j < |Listings(chan, peers, q)| ==> Listings(chan, peers, q)[j] == chan
  {
    if peers != [] {
      OnlyChannel(chan, peers[..|peers| - 1], q);
    }
  }

  // A tag is the place of its link among all links of its kind to that peer.
  lemma {:induction false} TagIsPlace(h: seq<Creation>, isSink: bool, q: nat, k: nat, i: nat, t: nat)
    requires Carries(h, isSink, q, k, i, t)
    ensures t < |Links(h, isSink, q)| && Links(h, isSink, q)[t] == h[k].chan
    decreases |h|
  {
    var front := h[..|h| - 1];
    if k < |h| - 1 {
      assert front[..k] == h[..k];
      TagIsPlace(front, isSink, q, k, i, t);
    } else {
      ListingsAre(h[k].chan, h[k].peers, q, i);
    }
  }

  lemma {:induction false} PlaceInListings(chan: nat, peers: seq<nat>, q: nat, j: nat) returns (i: nat)
    requires j < |Listings(chan, peers, q)|
    ensures i < |peers| && peers[i] == q && |Listings(chan, peers[..i], q)| == j
  {
    var front := peers[..|peers| - 1];
    if j < |Listings(chan, front, q)| {
      i := PlaceInListings(chan, front, q, j);
      assert front[..i] == peers[..i];
    } else {
      i := |peers| - 1;
    }
  }

  lemma {:induction false} PlaceHasTag(h: seq<Creation>, isSink: bool, q: nat, t: nat) returns (k: nat, i: nat)
    requires t < |Links(h, isSink, q)|
    ensures Carries(h, isSink, q, k, i, t)
  {
    var front, c := h[..|h| - 1], h[|h| - 1];
    var before := |Links(front, isSink, q)|;
    if t < before {
      k, i := PlaceHasTag(front, isSink, q, t);
      assert front[..k] == h[..k];
    } else {
      k := |h| - 1;
      i := PlaceInListings(c.chan, c.peers, q, t - before);
    }
  }

  // No two links to the same peer share a tag.
  lemma TagsDistinct(h: seq<Creation>, isSink: bool, q: nat, k: nat, i: nat, k': nat, i': nat, t: nat)
    requires Carries(h, isSink, q, k, i, t) && Carries(h, isSink, q, k', i', t)
    ensures k == k' && i == i'
  {
    if k < k' {
      TagBelow(h, isSink, q, k, i, k', t);
    } else if k' < k {
      TagBelow(h, isSink, q, k', i', k, t);
    } else if i < i' {
      ListingsGrow(h[k].chan, h[k].peers, q, i, i');
    } else if i' < i {
      ListingsGrow(h[k].chan, h[k].peers, q, i', i);
    }
  }

  lemma TagBelow(h: seq<Creation>, isSink: bool, q: nat, k: nat, i: nat, m: nat, t: nat)
    requires Carries(h, isSink, q, k, i, t) && k < m <= |h|
    ensures t < |Links(h[..m], isSink, q)|
  {
    assert h[..m][..k] == h[..k];
    TagIsPlace(h[..m], isSink, q, k, i, t);
  }

  lemma ListingsGrow(chan: nat, peers: seq<nat>, q: nat, i: nat, i': nat)
    requires i < i' <= |peers| && peers[i] == q
    ensures |Listings(chan, peers[..i], q)| < |Listings(chan, peers[..i'], q)|
  {
    assert peers[..i'][..i] == peers[..i];
    ListingsAre(chan, peers[..i'], q, i);
  }

  // One end may be ahead of the other; as long as the order is the same, a tag
  // means the same channel at both ends.
  lemma SameTagSameChannel(hp: seq<Creation>, hq: seq<Creation>, p: nat, q: nat,
                           k: nat, i: nat, k': nat, i': nat, t: nat)
    requires Links(hp, true, q) <= Links(hq, false, p) || Links(hq, false, p) <= Links(hp, true, q)
    requires Carries(hp, true, q, k, i, t) && Carries(hq, false, p, k', i', t)
    ensures hp[k].chan == hq[k'].chan
  {
    TagIsPlace(hp, true, q, k, i, t);
    TagIsPlace(hq, false, p, k', i', t);
  }

  ghost predicate Distinct(s: seq<nat>) {
    forall i, j :: 0 <= i < j < |s| ==> s[i] != s[j]
  }

  // Both ends of every channel from p to q carry the same tag.
  ghost predicate EndsAgree(hp: seq<Creation>, hq: seq<Creation>, p: nat, q: nat) {
    forall k: nat, i: nat, t: nat, k': nat, i': nat, t': nat ::
      Carries(hp, true, q, k, i, t) && Carries(hq, false, p, k', i', t') && hp[k].chan == hq[k'].chan ==> t == t'
  }

  // Two processes that have created the ends of the same channels agree on every
  // tag if and only if they have created them in the same order.
  lemma TagsAgreeExactlyWhen(hp: seq<Creation>, hq: seq<Creation>, p: nat, q: nat)
    requires Distinct(Links(hp, true, q)) && Distinct(Links(hq, false, p))
    requires forall c :: c in Links(hp, true, q) <==> c in Links(hq, false, p)
    ensures EndsAgree(hp, hq, p, q) <==> Links(hp, true, q) == Links(hq, false, p)
  {
    var sinks, sources := Links(hp, true, q), Links(hq, false, p);
    if sinks == sources {
      forall k: nat, i: nat, t: nat, k': nat, i': nat, t': nat |
        Carries(hp, true, q, k, i, t) && Carries(hq, false, p, k', i', t') && hp[k].chan == hq[k'].chan
        ensures t == t'
      {
        TagIsPlace(hp, true, q, k, i, t);
        TagIsPlace(hq, false, p, k', i', t');
      }
    }
    if EndsAgree(hp, hq, p, q) {
      forall t: nat | t < |sinks| ensures SameAt(sinks, sources, t) {
        assert sinks[t] in sources;
        var t': nat :| t' < |sources| && sources[t'] == sinks[t];
        AgreedPlace(hp, hq, p, q, t, t');
      }
      forall t': nat | t' < |sources| ensures SameAt(sinks, sources, t') {
        assert sources[t'] in sinks;
        var t: nat :| t < |sinks| && sinks[t] == sources[t'];
        AgreedPlace(hp, hq, p, q, t, t');
      }
      SamePlaces(sinks, sources);
    }
  }

  predicate SameAt(a: seq<nat>, b: seq<nat>, t: nat) {
    t < |a| && t < |b| && a[t] == b[t]
  }

  lemma SamePlaces(a: seq<nat>, b: seq<nat>)
    requires forall t: nat :: t < |a| ==> SameAt(a, b, t)
    requires forall t: nat :: t < |b| ==> SameAt(a, b, t)
    ensures a == b
  {
    assert |a| > 0 ==> SameAt(a, b, |a| - 1);
    assert |b| > 0 ==> SameAt(a, b, |b| - 1);
    forall t: nat | t < |a| ensures a[t] == b[t] {
      assert SameAt(a, b, t);
    }
  }

  lemma AgreedPlace(hp: seq<Creation>, hq: seq<Creation>, p: nat, q: nat, t: nat, t': nat)
    requires EndsAgree(hp, hq, p, q)
    requires t < |Links(hp, true, q)| && t' < |Links(hq, false, p)|
    requires Links(hp, true, q)[t] == Links(hq, false, p)[t']
    ensures t == t'
  {
    var k, i := PlaceHasTag(hp, true, q, t);
    var k', i' := PlaceHasTag(hq, false, p, t');
    TagIsPlace(hp, true, q, k, i, t);
    TagIsPlace(hq, false, p, k', i', t');
  }
}
