/**
 * The grouping of artworks by room that both the editor's preview and the viewer compute:
 * a loop over the artworks that fills an insertion-ordered `Map` from room key to the
 * artworks with that key, followed by `Array.from(map.entries())`.
 *
 * The loop is generic here in the item type and the key function, since the editor groups
 * typed artworks and the viewer groups the values decoded from the link.
 */
module Grouping {
  import opened Wrappers
  import opened JsString

  /** The room of artworks that have none. */
  const MainRoom: string := "Main"

  /**
   * The group key of an artwork's room: the room itself, untrimmed, unless it is absent or
   * blank, in which case the artwork goes to the main room.
   */
  function RoomKey(room: Option<string>): (k: string)
    ensures k == MainRoom || (room == Some(k) && !IsBlank(k))
    ensures room.Some? && !IsBlank(room.value) ==> k == room.value
    ensures !IsBlank(k)
  {
    TrimEmptyIffBlank(if room.Some? then room.value else "");
    assert !IsJsWhitespace(MainRoom[0]);
    if room.Some? && room.value != [] && Trim(room.value) != [] then room.value else MainRoom
  }

  /** A room named "Main" shares its group with the artworks that have no room. */
  lemma ExplicitMainRoom()
    ensures RoomKey(Some(MainRoom)) == RoomKey(None) == RoomKey(Some("")) == RoomKey(Some(" "))
  {
  }


  /** The distinct keys of `items`, in the order in which each first appears. */
  function Keys<T>(items: seq<T>, key: T -> string): seq<string>
    decreases |items|
  {
    if items == [] then []
    else
      var ks := Keys(items[..|items| - 1], key);
      var k := key(items[|items| - 1]);
      if k in ks then ks else ks + [k]
  }

  /** No string occurs twice in `ks`. */
  predicate Distinct(ks: seq<string>) {
    forall i, j :: 0 <= i < j < |ks| ==> ks[i] != ks[j]
  }

  /** The items whose key is `k`, in their original order. */
  function Members<T>(items: seq<T>, key: T -> string, k: string): seq<T>
    decreases |items|
  {
    if items == [] then []
    else
      var last := items[|items| - 1];
      Members(items[..|items| - 1], key, k) + (if key(last) == k then [last] else [])
  }

  /** The `[key, items]` entries for the keys `ks`, in that order. */
  function GroupsFor<T>(items: seq<T>, key: T -> string, ks: seq<string>): (gs: seq<(string, seq<T>)>)
    ensures |gs| == |ks|
    ensures forall i :: 0 <= i < |ks| ==> gs[i] == (ks[i], Members(items, key, ks[i]))
  {
    seq(|ks|, i requires 0 <= i < |ks| => (ks[i], Members(items, key, ks[i])))
  }

  /** The entries of the map the grouping loop builds, in the map's insertion order. */
  function Groups<T>(items: seq<T>, key: T -> string): seq<(string, seq<T>)> {
    GroupsFor(items, key, Keys(items, key))
  }

  /** All the groups' items, one group after the other. */
  function Flatten<T>(gs: seq<(string, seq<T>)>): seq<T> {
    if gs == [] then [] else Flatten(gs[..|gs| - 1]) + gs[|gs| - 1].1
  }

  /** `order` and `buckets` are what the grouping loop holds once it has seen `items`. */
  ghost predicate Buckets<T>(items: seq<T>, key: T -> string, order: seq<string>, buckets: map<string, seq<T>>) {
    && order == Keys(items, key)
    && (forall k :: k in buckets <==> k in order)
    && (forall k :: k in buckets ==> buckets[k] == Members(items, key, k))
  }

  /**
   * The grouping loop: a `Map` from key to array, with `order` recording the map's insertion
   * order; an item whose key is new opens a group, every item is pushed onto its group.
   */
  method Group<T>(items: seq<T>, key: T -> string) returns (groups: seq<(string, seq<T>)>)
    ensures groups == Groups(items, key)
  {
    var order: seq<string> := [];
    var buckets: map<string, seq<T>> := map[];
    for i := 0 to |items|
      invariant Buckets(items[..i], key, order, buckets)
    {
      var a := items[i];
      var k := key(a);
      BucketsStep(items, i, key, order, buckets);
      if k !in buckets {
        buckets := buckets[k := []];
        order := order + [k];
      }
      buckets := buckets[k := buckets[k] + [a]];
    }
    assert items[..|items|] == items;
    groups := [];
    for j := 0 to |order|
      invariant groups == GroupsFor(items, key, order[..j])
    {
      assert order[..j + 1] == order[..j] + [order[j]];
      groups := groups + [(order[j], buckets[order[j]])];
    }
    assert order[..|order|] == order;
  }

  /** One turn of the grouping loop keeps `order` and `buckets` in step with the items seen. */
  lemma BucketsStep<T>(all: seq<T>, i: nat, key: T -> string, order: seq<string>, buckets: map<string, seq<T>>)
    requires i < |all|
    requires Buckets(all[..i], key, order, buckets)
    ensures var a := all[i]; var k := key(a);
      Buckets(all[..i + 1], key,
        if k in buckets then order else order + [k],
        buckets[k := (if k in buckets then buckets[k] else []) + [a]])
  {
    var items, a := all[..i], all[i];
    var k := key(a);
    assert all[..i + 1] == items + [a];
    assert (items + [a])[..|items|] == items;
    forall k' ensures Members(items + [a], key, k') == Members(items, key, k') + (if k == k' then [a] else []) {
      MembersSnoc(items, a, key, k');
    }
    if k !in buckets {
      KeysComplete(items, key);
      MembersNone(items, key, k);
    }
  }

  // ---------------------------------------------------------------------------------------
  // What the grouping guarantees

  /** No key opens two groups. */
  lemma {:induction false} KeysDistinct<T>(items: seq<T>, key: T -> string)
    ensures Distinct(Keys(items, key))
    decreases |items|
  {
    if items != [] {
      var ks' := Keys(items[..|items| - 1], key);
      var k := key(items[|items| - 1]);
      KeysDistinct(items[..|items| - 1], key);
      if k !in ks' {
        var ks := ks' + [k];
        forall i, j | 0 <= i < j < |ks| ensures ks[i] != ks[j] {
          if j == |ks'| {
            assert ks[i] == ks'[i] && ks[j] == k;
          } else {
            assert ks[i] == ks'[i] && ks[j] == ks'[j];
          }
        }
      }
    }
  }

  /** Appending one item extends exactly the group of its key. */
  lemma MembersSnoc<T>(pre: seq<T>, x: T, key: T -> string, k: string)
    ensures Members(pre + [x], key, k) == Members(pre, key, k) + (if key(x) == k then [x] else [])
  {
    assert (pre + [x])[..|pre|] == pre;
  }

  /** Every item's key opens a group, and every group's key is the key of one of the items. */
  lemma {:induction false} KeysComplete<T>(items: seq<T>, key: T -> string)
    ensures forall x :: x in items ==> key(x) in Keys(items, key)
    ensures forall k :: k in Keys(items, key) ==> exists x :: x in items && key(x) == k
    decreases |items|
  {
    if items != [] {
      var pre, last := items[..|items| - 1], items[|items| - 1];
      assert items == pre + [last];
      KeysComplete(pre, key);
    }
  }

  /** A group holds exactly the items with its key. */
  lemma {:induction false} MembersExactly<T>(items: seq<T>, key: T -> string, k: string)
    ensures forall x :: x in Members(items, key, k) <==> x in items && key(x) == k
    decreases |items|
  {
    if items != [] {
      var pre := items[..|items| - 1];
      MembersExactly(pre, key, k);
      assert items == pre + [items[|items| - 1]];
    }
  }

  /** A key that no item has has no members. */
  lemma {:induction false} MembersNone<T>(items: seq<T>, key: T -> string, k: string)
    requires forall x :: x in items ==> key(x) != k
    ensures Members(items, key, k) == []
    decreases |items|
  {
    if items != [] {
      var pre := items[..|items| - 1];
      assert forall x :: x in pre ==> x in items;
      MembersNone(pre, key, k);
      assert items[|items| - 1] in items;
    }
  }

  /** Grouping keeps relative order: the group of a concatenation is the concatenation of the groups. */
  lemma {:induction false} MembersAppend<T>(a: seq<T>, b: seq<T>, key: T -> string, k: string)
    ensures Members(a + b, key, k) == Members(a, key, k) + Members(b, key, k)
    decreases |b|
  {
    if b == [] {
      assert a + b == a;
    } else {
      var last := b[|b| - 1];
      var pre := b[..|b| - 1];
      assert (a + b)[..|a + b| - 1] == a + pre;
      MembersAppend(a, pre, key, k);
    }
  }

  /** Every group is non-empty. */
  lemma NoEmptyGroup<T>(items: seq<T>, key: T -> string)
    ensures forall g :: g in Groups(items, key) ==> g.1 != []
  {
    var ks := Keys(items, key);
    var gs := Groups(items, key);
    KeysComplete(items, key);
    forall g | g in gs ensures g.1 != [] {
      var n :| 0 <= n < |gs| && gs[n] == g;
      assert g.0 == ks[n] && g.0 in ks;
      var x :| x in items && key(x) == g.0;
      MembersExactly(items, key, g.0);
      assert x in g.1;
    }
  }

  /**
   * Groups come in the order in which their keys first appear: the groups of every prefix of
   * the items are the first groups of the whole.
   */
  lemma {:induction false} FirstAppearanceOrder<T>(items: seq<T>, key: T -> string, n: nat)
    requires n <= |items|
    ensures Keys(items[..n], key) <= Keys(items, key)
    decreases |items| - n
  {
    if n < |items| {
      FirstAppearanceOrder(items, key, n + 1);
      assert items[..n + 1][..n] == items[..n];
    } else {
      assert items[..n] == items;
    }
  }

  /** The multiset of the items in the groups for the keys `ks`. */
  ghost function Gathered<T>(items: seq<T>, key: T -> string, ks: seq<string>): multiset<T> {
    if ks == [] then multiset{}
    else Gathered(items, key, ks[..|ks| - 1]) + multiset(Members(items, key, ks[|ks| - 1]))
  }

  lemma {:induction false} FlattenGathered<T>(items: seq<T>, key: T -> string, ks: seq<string>)
    ensures multiset(Flatten(GroupsFor(items, key, ks))) == Gathered(items, key, ks)
    decreases |ks|
  {
    if ks != [] {
      var gs := GroupsFor(items, key, ks);
      var pre := ks[..|ks| - 1];
      assert gs[..|gs| - 1] == GroupsFor(items, key, pre);
      FlattenGathered(items, key, pre);
    }
  }

  /** Adding an item whose key is not among `ks` leaves the gathered groups unchanged... */
  lemma {:induction false} GatheredSnocOut<T>(pre: seq<T>, x: T, key: T -> string, ks: seq<string>)
    requires Distinct(ks)
    ensures key(x) !in ks ==> Gathered(pre + [x], key, ks) == Gathered(pre, key, ks)
    decreases |ks|
  {
    if ks != [] {
      var init := ks[..|ks| - 1];
      var k := ks[|ks| - 1];
      assert Distinct(init);
      GatheredSnocOut(pre, x, key, init);
      MembersSnoc(pre, x, key, k);
    }
  }

  /** ... and adding one whose key is among the (distinct) keys `ks` adds it once. */
  lemma {:induction false} GatheredSnocIn<T>(pre: seq<T>, x: T, key: T -> string, ks: seq<string>)
    requires Distinct(ks)
    requires key(x) in ks
    ensures Gathered(pre + [x], key, ks) == Gathered(pre, key, ks) + multiset{x}
    decreases |ks|
  {
    var init := ks[..|ks| - 1];
    var k := ks[|ks| - 1];
    assert Distinct(init);
    MembersSnoc(pre, x, key, k);
    if key(x) == k {
      assert key(x) !in init;
      GatheredSnocOut(pre, x, key, init);
    } else {
      GatheredSnocIn(pre, x, key, init);
    }
  }

  lemma {:induction false} GatheredAll<T>(items: seq<T>, key: T -> string)
    ensures Gathered(items, key, Keys(items, key)) == multiset(items)
    decreases |items|
  {
    if items != [] {
      var n := |items| - 1;
      var pre, x := items[..n], items[n];
      assert items == pre + [x];
      var ks' := Keys(pre, key);
      GatheredAll(pre, key);
      KeysDistinct(pre, key);
      if key(x) in ks' {
        GatheredSnocIn(pre, x, key, ks');
      } else {
        GatheredSnocOut(pre, x, key, ks');
        KeysComplete(pre, key);
        MembersNone(pre, key, key(x));
        MembersSnoc(pre, x, key, key(x));
        assert (ks' + [key(x)])[..|ks'|] == ks';
      }
    }
  }

  /** Every item lands in exactly one group: the groups together are a permutation of the items. */
  lemma Partition<T>(items: seq<T>, key: T -> string)
    ensures multiset(Flatten(Groups(items, key))) == multiset(items)
    ensures |Flatten(Groups(items, key))| == |items|
  {
    FlattenGathered(items, key, Keys(items, key));
    GatheredAll(items, key);
    assert |multiset(Flatten(Groups(items, key)))| == |multiset(items)|;
  }
}
