/**
 * The message collector (`listMessages`): every "talking" journal entry of
 * the latest world's roster, mapped to its display form, ascending by time.
 */
module Messages {
  import opened Wrappers
  import opened Store
  import opened Sorting

  /** The talking entries of one player, in journal order (the per-player index query). */
  function TalkingOf(journal: seq<Entry>, id: PlayerId): seq<Entry>
  {
    if journal == [] then []
    else if journal[0].playerId == id && journal[0].data.Talking? then [journal[0]] + TalkingOf(journal[1..], id)
    else TalkingOf(journal[1..], id)
  }

  /** The index query keeps every talking entry of the player, as often as it occurs, and nothing else. */
  lemma {:induction false} TalkingOfCount(journal: seq<Entry>, id: PlayerId, e: Entry)
    ensures multiset(TalkingOf(journal, id))[e] ==
      if e.playerId == id && e.data.Talking? then multiset(journal)[e] else 0
  {
    if journal != [] {
      assert journal == [journal[0]] + journal[1..];
      TalkingOfCount(journal[1..], id, e);
    }
  }

  /**
   * The per-player talking entries of `ids`, concatenated in roster order
   * (`flatMap`).
   */
  function Collected(journal: seq<Entry>, ids: seq<PlayerId>): seq<Entry>
  {
    if ids == [] then []
    else TalkingOf(journal, ids[0]) + Collected(journal, ids[1..])
  }

  /**
   * A talking entry is collected once per occurrence of its player in `ids`,
   * and any other entry never.
   */
  lemma {:induction false} CollectedCount(journal: seq<Entry>, ids: seq<PlayerId>, e: Entry)
    ensures multiset(Collected(journal, ids))[e] ==
      if e.data.Talking? then multiset(journal)[e] * multiset(ids)[e.playerId] else 0
  {
    if ids != [] {
      var head := TalkingOf(journal, ids[0]);
      var rest := Collected(journal, ids[1..]);
      var n := multiset(journal)[e];
      var d := if e.playerId == ids[0] then 1 else 0;
      var m := multiset(ids[1..])[e.playerId];
      assert multiset(Collected(journal, ids))[e] == multiset(head)[e] + multiset(rest)[e] by {
        assert Collected(journal, ids) == head + rest;
      }
      assert multiset(ids)[e.playerId] == d + m by {
        assert ids == [ids[0]] + ids[1..];
      }
      CollectedCount(journal, ids[1..], e);
      TalkingOfCount(journal, ids[0], e);
      if e.data.Talking? {
        CountStep(multiset(Collected(journal, ids))[e], multiset(head)[e], multiset(rest)[e], n, d, m,
                  multiset(ids)[e.playerId]);
      }
    }
  }

  /** One more roster occurrence of the player adds one more copy of each of its entries. */
  lemma CountStep(c: int, h: int, r: int, n: int, d: int, m: int, total: int)
    requires c == h + r && h == n * d && r == n * m && total == d + m
    ensures c == n * total
  {
  }

  /** An entry is collected exactly when it is a talking entry of a player in `ids`. */
  lemma CollectedMember(journal: seq<Entry>, ids: seq<PlayerId>, e: Entry)
    ensures e in Collected(journal, ids) <==> e in journal && e.data.Talking? && e.playerId in ids
  {
    CollectedCount(journal, ids, e);
    assert e in Collected(journal, ids) <==> e in multiset(Collected(journal, ids));
    assert e in journal <==> e in multiset(journal);
    assert e.playerId in ids <==> e.playerId in multiset(ids);
  }

  /** The talking entries whose player is in `ids`, in journal order. */
  function TalkingAmong(journal: seq<Entry>, ids: set<PlayerId>): seq<Entry>
  {
    if journal == [] then []
    else if journal[0].playerId in ids && journal[0].data.Talking? then [journal[0]] + TalkingAmong(journal[1..], ids)
    else TalkingAmong(journal[1..], ids)
  }

  /** The filter keeps every talking entry of a player in `ids`, as often as it occurs, and nothing else. */
  lemma {:induction false} TalkingAmongCount(journal: seq<Entry>, ids: set<PlayerId>, e: Entry)
    ensures multiset(TalkingAmong(journal, ids))[e] ==
      if e.playerId in ids && e.data.Talking? then multiset(journal)[e] else 0
  {
    if journal != [] {
      assert journal == [journal[0]] + journal[1..];
      TalkingAmongCount(journal[1..], ids, e);
    }
  }

  /** Map every entry through the display mapper, position by position. */
  function MapMessages(entries: seq<Entry>, mapper: Entry -> ClientMessage): seq<ClientMessage>
  {
    seq(|entries|, i requires 0 <= i < |entries| => mapper(entries[i]))
  }

  /** Mapping distributes over concatenation. */
  lemma MapConcat(u: seq<Entry>, v: seq<Entry>, mapper: Entry -> ClientMessage)
    ensures MapMessages(u + v, mapper) == MapMessages(u, mapper) + MapMessages(v, mapper)
  {
  }

  /** Removing the element at `k` removes one occurrence of it. */
  lemma RemoveAt<T>(b: seq<T>, k: nat)
    requires k < |b|
    ensures multiset(b[..k] + b[k + 1..]) == multiset(b) - multiset{b[k]}
  {
    assert b == b[..k] + [b[k]] + b[k + 1..];
  }

  /** Mapping a sequence maps the element at `k` once, next to the rest. */
  lemma MapRemoveAt(b: seq<Entry>, k: nat, mapper: Entry -> ClientMessage)
    requires k < |b|
    ensures multiset(MapMessages(b, mapper)) ==
      multiset(MapMessages(b[..k] + b[k + 1..], mapper)) + multiset{mapper(b[k])}
  {
    var u, v := b[..k], b[k + 1..];
    assert b == u + [b[k]] + v;
    MapConcat(u + [b[k]], v, mapper);
    MapConcat(u, [b[k]], mapper);
    MapConcat(u, v, mapper);
    assert MapMessages([b[k]], mapper) == [mapper(b[k])];
  }

  /** Taking the head of `a` out of `a` and the same element out of `b`, before and after mapping. */
  lemma MapPermutationStep(a: seq<Entry>, b: seq<Entry>, k: nat, mapper: Entry -> ClientMessage)
    requires multiset(a) == multiset(b)
    requires a != [] && k < |b| && b[k] == a[0]
    ensures multiset(a[1..]) == multiset(b[..k] + b[k + 1..])
    ensures multiset(MapMessages(a, mapper)) == multiset(MapMessages(a[1..], mapper)) + multiset{mapper(a[0])}
    ensures multiset(MapMessages(b, mapper)) == multiset(MapMessages(b[..k] + b[k + 1..], mapper)) + multiset{mapper(a[0])}
  {
    assert multiset(a[1..]) == multiset(b[..k] + b[k + 1..]) by {
      RemoveAt(b, k);
      assert a == [a[0]] + a[1..];
    }
    assert multiset(MapMessages(a, mapper)) == multiset(MapMessages(a[1..], mapper)) + multiset{mapper(a[0])} by {
      assert a == [a[0]] + a[1..];
      MapConcat([a[0]], a[1..], mapper);
    }
    MapRemoveAt(b, k, mapper);
  }

  /** Mapping two permutations of each other gives permutations of each other. */
  lemma {:induction false} MapPermutation(a: seq<Entry>, b: seq<Entry>, mapper: Entry -> ClientMessage)
    requires multiset(a) == multiset(b)
    ensures multiset(MapMessages(a, mapper)) == multiset(MapMessages(b, mapper))
    decreases |a|
  {
    if a == [] {
      assert |multiset(b)| == 0;
    } else {
      assert a[0] in b by {
        assert a[0] in multiset(b);
      }
      var k :| 0 <= k < |b| && b[k] == a[0];
      MapPermutationStep(a, b, k, mapper);
      MapPermutation(a[1..], b[..k] + b[k + 1..], mapper);
    }
  }

  /**
   * `listMessages`: empty when there is no world; otherwise the mapped talking
   * entries of the roster's players, sorted ascending by timestamp.
   */
  function ListMessages(s: Store, mapper: Entry -> ClientMessage): (r: seq<ClientMessage>)
    ensures s.latestWorld.None? ==> r == []
    ensures SortedByTs(r)
    ensures s.latestWorld.Some? ==>
      multiset(r) == multiset(MapMessages(Collected(s.journal, RosterIds(s.roster)), mapper))
  {
    if s.latestWorld.None? then []
    else SortByTs(MapMessages(Collected(s.journal, RosterIds(s.roster)), mapper))
  }

  /**
   * A message is listed exactly when it is the mapping of a talking entry
   * written by a roster player; entries of other types or of other players
   * never contribute.
   */
  lemma ListMessagesMembership(s: Store, mapper: Entry -> ClientMessage, m: ClientMessage)
    requires s.latestWorld.Some?
    ensures m in ListMessages(s, mapper) <==>
      exists e :: e in s.journal && e.data.Talking? && e.playerId in RosterIds(s.roster) && mapper(e) == m
  {
    var ids := RosterIds(s.roster);
    var c := Collected(s.journal, ids);
    var r := ListMessages(s, mapper);
    assert m in r <==> m in multiset(r);
    assert m in MapMessages(c, mapper) <==> m in multiset(MapMessages(c, mapper));
    MapMember(c, mapper, m);
    forall e | e in c
      ensures e in s.journal && e.data.Talking? && e.playerId in ids
    {
      CollectedMember(s.journal, ids, e);
    }
    forall e | e in s.journal && e.data.Talking? && e.playerId in ids
      ensures e in c
    {
      CollectedMember(s.journal, ids, e);
    }
  }

  /** A message is in the mapping exactly when some entry maps to it. */
  lemma MapMember(entries: seq<Entry>, mapper: Entry -> ClientMessage, m: ClientMessage)
    ensures m in MapMessages(entries, mapper) <==> exists e :: e in entries && mapper(e) == m
  {
    var r := MapMessages(entries, mapper);
    if m in r {
      var i :| 0 <= i < |r| && r[i] == m;
      assert entries[i] in entries;
    }
    if exists e :: e in entries && mapper(e) == m {
      var e :| e in entries && mapper(e) == m;
      var i :| 0 <= i < |entries| && entries[i] == e;
      assert r[i] == m;
    }
  }

  /**
   * With a roster of distinct players, the listing is a sorted permutation of
   * the mapped talking entries of roster players, taken in journal order.
   */
  lemma ListMessagesIsSortedPermutation(s: Store, mapper: Entry -> ClientMessage)
    requires s.latestWorld.Some?
    requires forall i, j :: 0 <= i < j < |s.roster| ==> s.roster[i].id != s.roster[j].id
    ensures SortedByTs(ListMessages(s, mapper))
    ensures multiset(ListMessages(s, mapper)) ==
      multiset(MapMessages(TalkingAmong(s.journal, set p | p in s.roster :: p.id), mapper))
  {
    var ids := RosterIds(s.roster);
    var idSet := set p | p in s.roster :: p.id;
    var c := Collected(s.journal, ids);
    var t := TalkingAmong(s.journal, idSet);
    DistinctIds(ids);
    forall e: Entry
      ensures multiset(c)[e] == multiset(t)[e]
    {
      CollectedCount(s.journal, ids, e);
      TalkingAmongCount(s.journal, idSet, e);
      assert e.playerId in ids <==> e.playerId in idSet by {
        if e.playerId in idSet {
          var p :| p in s.roster && p.id == e.playerId;
          var i :| 0 <= i < |s.roster| && s.roster[i] == p;
          assert ids[i] == e.playerId;
        }
      }
    }
    assert multiset(c) == multiset(t);
    MapPermutation(c, t, mapper);
  }

  /** In a sequence of distinct ids, each id occurs at most once. */
  lemma {:induction false} DistinctIds(ids: seq<PlayerId>)
    requires forall i, j :: 0 <= i < j < |ids| ==> ids[i] != ids[j]
    ensures forall id :: multiset(ids)[id] == if id in ids then 1 else 0
  {
    if ids != [] {
      DistinctIds(ids[1..]);
      assert ids == [ids[0]] + ids[1..];
      assert ids[0] !in ids[1..];
    }
  }
}
