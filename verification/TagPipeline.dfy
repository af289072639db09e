/** What the tag pipeline keeps: the three steps, whatever order maps are ranged over in, give
    back the user's own tags. */
module TagPipeline {
  import opened Values
  import opened OrderedTags

  /* ----- how the conversions compose ----- */

  lemma {:induction false} ConvertAppend(a: seq<TagValue>, b: seq<TagValue>)
    ensures Convert(a + b) == Convert(a) + Convert(b)
  {
    if b == [] {
      assert a + b == a;
    } else {
      var n := |b| - 1;
      assert (a + b)[..|a + b| - 1] == a + b[..n];
      ConvertAppend(a, b[..n]);
    }
  }

  lemma {:induction false} KeyOrderAppend(a: seq<TagValue>, b: seq<TagValue>)
    ensures KeyOrder(a + b) == KeyOrder(a) + KeyOrder(b)
  {
    if b == [] {
      assert a + b == a;
    } else {
      var n := |b| - 1;
      assert (a + b)[..|a + b| - 1] == a + b[..n];
      KeyOrderAppend(a, b[..n]);
    }
  }

  /** The keys of the converted map are the keys listed. */
  lemma {:induction false} KeysListed(tags: seq<TagValue>)
    ensures Convert(tags).Keys == Keys(KeyOrder(tags))
  {
    if tags != [] {
      KeysListed(tags[..|tags| - 1]);
      var t := tags[|tags| - 1];
      if t.key.Some? {
        assert Keys(KeyOrder(tags)) == Keys(KeyOrder(tags[..|tags| - 1])) + {t.key.value};
      }
    }
  }

  lemma SingleEntry(k: string, v: string)
    ensures Convert([Entry(k, v)]) == map[k := v] && KeyOrder([Entry(k, v)]) == [k]
  {
  }

  /** An enumeration converts back to the map it enumerates. */
  lemma {:induction false} ConvertEnumeration(list: seq<TagValue>, m: TagMap)
    requires Enumerates(list, m)
    ensures Convert(list) == m
  {
    if list != [] {
      var t := list[|list| - 1];
      ConvertEnumeration(list[..|list| - 1], m - {t.key.value});
      assert (m - {t.key.value})[t.key.value := m[t.key.value]] == m;
    }
  }

  lemma {:induction false} ConvertOrdered(m: TagMap, order: seq<string>)
    ensures Convert(Ordered(m, order)) == map k | k in m && k in order :: m[k]
  {
    if order != [] {
      var k, rest := order[0], order[1..];
      assert order == [k] + rest;
      if k in m {
        ConvertOrdered(m - {k}, rest);
        ConvertAppend([Entry(k, m[k])], Ordered(m - {k}, rest));
        SingleEntry(k, m[k]);
      } else {
        ConvertOrdered(m, rest);
      }
    }
  }

  /** Whatever list `fromACKTags` builds, it stands for the map it was built from. */
  lemma ConvertListOf(m: TagMap, order: seq<string>, list: seq<TagValue>)
    requires IsListOf(m, order, list)
    ensures Convert(list) == m
  {
    var head := Ordered(m, order);
    var tail := list[|head|..];
    assert list == head + tail;
    ConvertAppend(head, tail);
    ConvertOrdered(m, order);
    ConvertEnumeration(tail, m - Keys(order));
  }

  lemma {:induction false} OrderedAppend(m: TagMap, a: seq<string>, b: seq<string>)
    ensures Ordered(m, a + b) == Ordered(m, a) + Ordered(m - Keys(a), b)
  {
    if a == [] {
      assert a + b == b;
      assert m - Keys(a) == m;
    } else {
      assert (a + b)[1..] == a[1..] + b;
      var m' := if a[0] in m then m - {a[0]} else m;
      OrderedAppend(m', a[1..], b);
      assert m' - Keys(a[1..]) == m - Keys(a);
    }
  }

  lemma {:induction false} OrderedNothing(m: TagMap, order: seq<string>)
    requires m.Keys !! Keys(order)
    ensures Ordered(m, order) == []
  {
    if order != [] {
      assert order[0] in Keys(order);
      OrderedNothing(m, order[1..]);
    }
  }

  /** Listing `m'` in the order of an ordered list of `m` is listing it in the original order. */
  lemma {:induction false} OrderedTwice(m: TagMap, m': TagMap, order: seq<string>)
    requires forall k :: k in order && k in m' ==> k in m
    ensures Ordered(m', KeyOrder(Ordered(m, order))) == Ordered(m', order)
  {
    if order != [] {
      var k, rest := order[0], order[1..];
      if k in m {
        var tail := Ordered(m - {k}, rest);
        SingleEntry(k, m[k]);
        KeyOrderAppend([Entry(k, m[k])], tail);
        assert KeyOrder(Ordered(m, order)) == [k] + KeyOrder(tail);
        assert ([k] + KeyOrder(tail))[1..] == KeyOrder(tail);
        OrderedTwice(m - {k}, if k in m' then m' - {k} else m', rest);
      } else {
        OrderedTwice(m, m', rest);
      }
    }
  }

  /** Every map can be enumerated, and `fromACKTags` can always build a list. */
  lemma {:induction false} EnumerationExists(m: TagMap)
    ensures exists list :: Enumerates(list, m)
    decreases m.Keys
  {
    if m == map[] {
      assert Enumerates([], m);
    } else {
      var k :| k in m;
      EnumerationExists(m - {k});
      var list :| Enumerates(list, m - {k});
      var longer := list + [Entry(k, m[k])];
      assert longer[..|longer| - 1] == list;
      assert Enumerates(longer, m);
    }
  }

  lemma ListExists(m: TagMap, order: seq<string>)
    ensures exists list :: IsListOf(m, order, list)
  {
    EnumerationExists(m - Keys(order));
    var tail :| Enumerates(tail, m - Keys(order));
    var list := Ordered(m, order) + tail;
    assert list[|Ordered(m, order)|..] == tail;
    assert IsListOf(m, order, list);
  }

  /* ----- the round trip ----- */

  /** The user's tags as the pipeline is meant to give them back. */
  function UserTags(tags: seq<TagValue>, systemTags: seq<string>): seq<TagValue> {
    Ordered(WithoutSystem(Convert(tags), systemTags), KeyOrder(tags))
  }

  /** `result` is what the three steps, applied to `user`, may leave. */
  ghost predicate PipelineResult(user: seq<TagValue>, defaults: TagMap, latest: seq<TagValue>, systemTags: seq<string>, result: seq<TagValue>) {
    exists ensured, mirrored ::
      PipelineSteps(user, defaults, latest, systemTags, ensured, mirrored, result)
  }

  ghost predicate PipelineSteps(user: seq<TagValue>, defaults: TagMap, latest: seq<TagValue>, systemTags: seq<string>,
                                ensured: seq<TagValue>, mirrored: seq<TagValue>, result: seq<TagValue>) {
    && IsListOf(Merge(Convert(user), defaults), KeyOrder(user), ensured)
    && IsListOf(Convert(ensured) + AwsPart(Convert(latest)), KeyOrder(ensured), mirrored)
    && IsListOf(WithoutSystem(Convert(mirrored), systemTags), KeyOrder(mirrored), result)
  }

  /** No default tag outlives the filter unless the user has a tag of that key. */
  predicate DefaultsCovered(user: seq<TagValue>, defaults: TagMap, systemTags: seq<string>) {
    forall k :: k in defaults ==> !UserKey(k, systemTags) || LastValue(user, k).Some?
  }

  /** The map a pipeline result stands for. */
  lemma ResultMap(user: seq<TagValue>, defaults: TagMap, latest: seq<TagValue>, systemTags: seq<string>,
                  ensured: seq<TagValue>, mirrored: seq<TagValue>, result: seq<TagValue>)
    requires PipelineSteps(user, defaults, latest, systemTags, ensured, mirrored, result)
    ensures Convert(mirrored) == Merge(Convert(user), defaults) + AwsPart(Convert(latest))
    ensures Convert(result) == WithoutSystem(Merge(Convert(user), defaults), systemTags)
  {
    ConvertListOf(Merge(Convert(user), defaults), KeyOrder(user), ensured);
    ConvertListOf(Convert(ensured) + AwsPart(Convert(latest)), KeyOrder(ensured), mirrored);
    ConvertListOf(WithoutSystem(Convert(mirrored), systemTags), KeyOrder(mirrored), result);
    AwsIsSystem(Merge(Convert(user), defaults), latest, systemTags);
  }

  lemma AwsIsSystem(m: TagMap, latest: seq<TagValue>, systemTags: seq<string>)
    ensures WithoutSystem(m + AwsPart(Convert(latest)), systemTags) == WithoutSystem(m, systemTags)
  {
  }

  /** The tag list comes back, by value and in order, exactly when the defaults are covered. */
  lemma RoundTrip(user: seq<TagValue>, defaults: TagMap, latest: seq<TagValue>, systemTags: seq<string>, result: seq<TagValue>)
    requires PipelineResult(user, defaults, latest, systemTags, result)
    ensures result == UserTags(user, systemTags) <==> DefaultsCovered(user, defaults, systemTags)
  {
    var ensured, mirrored :| PipelineSteps(user, defaults, latest, systemTags, ensured, mirrored, result);
    ResultMap(user, defaults, latest, systemTags, ensured, mirrored, result);
    if DefaultsCovered(user, defaults, systemTags) {
      CoveredMap(user, defaults, systemTags);
      AwsIsSystem(Merge(Convert(user), defaults), latest, systemTags);
      CoveredOrder(user, defaults, latest, systemTags, ensured, mirrored, result);
    } else {
      UncoveredMap(user, defaults, systemTags);
    }
  }

  lemma CoveredMap(user: seq<TagValue>, defaults: TagMap, systemTags: seq<string>)
    requires DefaultsCovered(user, defaults, systemTags)
    ensures WithoutSystem(Merge(Convert(user), defaults), systemTags) == WithoutSystem(Convert(user), systemTags)
  {
    forall k | k in defaults
      ensures IsSystem(k, systemTags) || k in Convert(user)
    {
      BeginsWithAws(k);
      LastWins(user, k);
    }
  }

  /** A default that is not covered is in the result and not in the user's list. */
  lemma UncoveredMap(user: seq<TagValue>, defaults: TagMap, systemTags: seq<string>)
    requires !DefaultsCovered(user, defaults, systemTags)
    ensures WithoutSystem(Merge(Convert(user), defaults), systemTags) != Convert(UserTags(user, systemTags))
  {
    var k :| k in defaults && UserKey(k, systemTags) && LastValue(user, k).None?;
    BeginsWithAws(k);
    LastWins(user, k);
    ConvertOrdered(WithoutSystem(Convert(user), systemTags), KeyOrder(user));
    assert k in WithoutSystem(Merge(Convert(user), defaults), systemTags) && k !in Convert(UserTags(user, systemTags));
  }

  /** The order half of the round trip: each step starts its list in the order of the one before. */
  lemma CoveredOrder(user: seq<TagValue>, defaults: TagMap, latest: seq<TagValue>, systemTags: seq<string>,
                     ensured: seq<TagValue>, mirrored: seq<TagValue>, result: seq<TagValue>)
    requires PipelineSteps(user, defaults, latest, systemTags, ensured, mirrored, result)
    requires WithoutSystem(Convert(mirrored), systemTags) == WithoutSystem(Convert(user), systemTags)
    ensures result == UserTags(user, systemTags)
  {
    var mine := WithoutSystem(Convert(user), systemTags);
    var merged := Merge(Convert(user), defaults);
    KeysListed(user);
    ConvertListOf(merged, KeyOrder(user), ensured);
    ListedOrder(merged, mine, KeyOrder(user), ensured);
    var withAws := Convert(ensured) + AwsPart(Convert(latest));
    KeysListed(ensured);
    ListedOrder(withAws, mine, KeyOrder(ensured), mirrored);
    KeysListed(mirrored);
    ConvertListOf(withAws, KeyOrder(ensured), mirrored);
    var head := Ordered(mine, KeyOrder(mirrored));
    assert mine - Keys(KeyOrder(mirrored)) == map[];
    ConvertEnumeration(result[|head|..], map[]);
    EmptyEnumeration(result[|head|..]);
    assert result == head;
  }

  lemma EmptyEnumeration(list: seq<TagValue>)
    requires Enumerates(list, map[])
    ensures list == []
  {
  }

  /** Entries listed by `order` keep that order in any list `fromACKTags` builds from more of them. */
  lemma ListedOrder(m: TagMap, part: TagMap, order: seq<string>, list: seq<TagValue>)
    requires IsListOf(m, order, list)
    requires part.Keys <= Keys(order) && part.Keys <= m.Keys
    ensures Ordered(part, KeyOrder(list)) == Ordered(part, order)
  {
    var head := Ordered(m, order);
    var tail := list[|head|..];
    assert list == head + tail;
    KeyOrderAppend(head, tail);
    OrderedAppend(part, KeyOrder(head), KeyOrder(tail));
    OrderedTwice(m, part, order);
    ConvertOrdered(m, order);
    KeysListed(head);
    assert part - Keys(KeyOrder(head)) == map[];
    OrderedNothing(map[], KeyOrder(tail));
  }

  /* ----- what `UserTags` means ----- */

  /** Position `i` of a tag list is the first one with key `k`. */
  predicate FirstAt(tags: seq<TagValue>, i: nat, k: string) {
    i < |tags| && tags[i].key == Some(k) && forall j :: 0 <= j < i ==> tags[j].key != Some(k)
  }

  /** The value at the last position with key `k`. */
  function LastValue(tags: seq<TagValue>, k: string): Option<string> {
    if tags == [] then None
    else if tags[|tags| - 1].key == Some(k) then Some(ValueOf(tags[|tags| - 1]))
    else LastValue(tags[..|tags| - 1], k)
  }

  /** The key is the user's own: neither listed as a system tag nor beginning with "aws:". */
  predicate UserKey(k: string, systemTags: seq<string>) {
    k !in systemTags && !(|k| >= 4 && k[..4] == ['a', 'w', 's', ':'])
  }

  /** Scans the first `n` tags and keeps each of the user's own keys where it first occurs, with the
      value it last has in the whole list. */
  function FirstKeyLastValue(tags: seq<TagValue>, systemTags: seq<string>, n: nat): seq<TagValue>
    requires n <= |tags|
  {
    if n == 0 then []
    else
      var key := tags[n - 1].key;
      FirstKeyLastValue(tags, systemTags, n - 1) +
      if key.Some? && FirstAt(tags, n - 1, key.value) && UserKey(key.value, systemTags)
      then [TagValue(key, LastValue(tags, key.value))] else []
  }

  lemma {:induction false} LastWins(tags: seq<TagValue>, k: string)
    ensures LastValue(tags, k) == if k in Convert(tags) then Some(Convert(tags)[k]) else None
  {
    if tags != [] {
      LastWins(tags[..|tags| - 1], k);
    }
  }

  lemma {:induction false} KeyOrderMembers(tags: seq<TagValue>, n: nat, k: string)
    requires n <= |tags|
    ensures k in KeyOrder(tags[..n]) <==> exists j :: 0 <= j < n && tags[j].key == Some(k)
  {
    if n > 0 {
      assert tags[..n][..n - 1] == tags[..n - 1];
      KeyOrderMembers(tags, n - 1, k);
    }
  }

  /** The pipeline's order and values: each key at its first place, with its last value. */
  lemma {:induction false} UserTagsPrefix(tags: seq<TagValue>, systemTags: seq<string>, n: nat)
    requires n <= |tags|
    ensures Ordered(WithoutSystem(Convert(tags), systemTags), KeyOrder(tags[..n])) == FirstKeyLastValue(tags, systemTags, n)
  {
    if n > 0 {
      UserTagsPrefix(tags, systemTags, n - 1);
      assert tags[..n][..n - 1] == tags[..n - 1];
      var t := tags[n - 1];
      if t.key.Some? {
        var m, before, k := WithoutSystem(Convert(tags), systemTags), KeyOrder(tags[..n - 1]), t.key.value;
        OrderedAppend(m, before, [k]);
        KeyOrderMembers(tags, n - 1, k);
        KeyOrderMembers(tags, |tags|, k);
        assert tags[..|tags|] == tags;
        KeysListed(tags);
        LastWins(tags, k);
        BeginsWithAws(k);
        assert Ordered(m - Keys(before), [k]) == if k in m - Keys(before) then [Entry(k, m[k])] else [];
      }
    }
  }

  lemma UserTagsMeaning(tags: seq<TagValue>, systemTags: seq<string>)
    ensures UserTags(tags, systemTags) == FirstKeyLastValue(tags, systemTags, |tags|)
  {
    UserTagsPrefix(tags, systemTags, |tags|);
    assert tags[..|tags|] == tags;
  }

  /** A list of distinct keys, none of them a system key, none with a nil value. */
  ghost predicate PlainUserTags(tags: seq<TagValue>, systemTags: seq<string>) {
    && (forall i :: 0 <= i < |tags| ==> tags[i].key.Some? && tags[i].value.Some? && UserKey(tags[i].key.value, systemTags))
    && (forall i, j :: 0 <= i < j < |tags| ==> tags[i].key != tags[j].key)
  }

  lemma {:induction false} PlainPrefix(tags: seq<TagValue>, systemTags: seq<string>, n: nat)
    requires PlainUserTags(tags, systemTags) && n <= |tags|
    ensures FirstKeyLastValue(tags, systemTags, n) == tags[..n]
  {
    if n > 0 {
      PlainPrefix(tags, systemTags, n - 1);
      OnlyValue(tags, n - 1, |tags|);
      assert tags[..|tags|] == tags;
      assert tags[n - 1] == TagValue(tags[n - 1].key, LastValue(tags, tags[n - 1].key.value));
    }
  }

  lemma {:induction false} OnlyValue(tags: seq<TagValue>, i: nat, n: nat)
    requires i < n <= |tags| && tags[i].key.Some?
    requires forall j :: i < j < n ==> tags[j].key != tags[i].key
    ensures LastValue(tags[..n], tags[i].key.value) == Some(ValueOf(tags[i]))
  {
    assert tags[..n][..n - 1] == tags[..n - 1];
    if i < n - 1 {
      OnlyValue(tags, i, n - 1);
    }
  }

  /** Plain tags come back unchanged exactly when the defaults are covered. */
  lemma PlainRoundTrip(user: seq<TagValue>, defaults: TagMap, latest: seq<TagValue>, systemTags: seq<string>, result: seq<TagValue>)
    requires PlainUserTags(user, systemTags)
    requires PipelineResult(user, defaults, latest, systemTags, result)
    ensures result == user <==> DefaultsCovered(user, defaults, systemTags)
  {
    RoundTrip(user, defaults, latest, systemTags, result);
    UserTagsMeaning(user, systemTags);
    PlainPrefix(user, systemTags, |user|);
  }

  /* ----- what each step leaves, key by key ----- */

  /** Every entry of the list has a key and the value that key last has, and no key is there twice. */
  ghost predicate Exact(list: seq<TagValue>) {
    && (forall i :: 0 <= i < |list| ==> list[i].key.Some? && list[i].value.Some?)
    && (forall i, j :: 0 <= i < j < |list| ==> list[i].key != list[j].key)
  }

  lemma {:induction false} EnumerationExact(list: seq<TagValue>, m: TagMap)
    requires Enumerates(list, m)
    ensures Exact(list) && forall i :: 0 <= i < |list| ==> list[i].key.value in m
  {
    if list != [] {
      var n := |list| - 1;
      EnumerationExact(list[..n], m - {list[n].key.value});
      assert forall i :: 0 <= i < n ==> list[i] == list[..n][i];
    }
  }

  lemma {:induction false} OrderedExact(m: TagMap, order: seq<string>)
    ensures Exact(Ordered(m, order))
    ensures forall i :: 0 <= i < |Ordered(m, order)| ==> Ordered(m, order)[i].key.value in m && Ordered(m, order)[i].key.value in order
  {
    if order != [] {
      OrderedExact(if order[0] in m then m - {order[0]} else m, order[1..]);
    }
  }

  /** Any list `fromACKTags` builds holds each entry of its map once. */
  lemma ListExact(m: TagMap, order: seq<string>, list: seq<TagValue>)
    requires IsListOf(m, order, list)
    ensures Exact(list)
    ensures forall k :: LastValue(list, k) == if k in m then Some(m[k]) else None
  {
    var head := Ordered(m, order);
    OrderedExact(m, order);
    EnumerationExact(list[|head|..], m - Keys(order));
    assert list == head + list[|head|..];
    ConvertListOf(m, order, list);
    forall k
      ensures LastValue(list, k) == if k in m then Some(m[k]) else None
    {
      LastWins(list, k);
    }
  }

  /** After `EnsureTags`: each key once, with the user's last value, or the default where the user has
      no tag of that key. */
  lemma EnsuredTags(user: seq<TagValue>, defaults: TagMap, ensured: seq<TagValue>)
    requires IsListOf(Merge(Convert(user), defaults), KeyOrder(user), ensured)
    ensures Exact(ensured)
    ensures forall k :: LastValue(ensured, k) ==
                        if LastValue(user, k).Some? then LastValue(user, k)
                        else if k in defaults then Some(defaults[k]) else None
  {
    ListExact(Merge(Convert(user), defaults), KeyOrder(user), ensured);
    forall k
      ensures LastValue(user, k) == if k in Convert(user) then Some(Convert(user)[k]) else None
    {
      LastWins(user, k);
    }
  }

  /** After `mirrorAWSTags`: each key once; a key that begins with "aws:" and that latest has, with
      latest's value, every other with the desired one. */
  lemma MirroredTags(desired: seq<TagValue>, latest: seq<TagValue>, mirrored: seq<TagValue>)
    requires IsListOf(Convert(desired) + AwsPart(Convert(latest)), KeyOrder(desired), mirrored)
    ensures Exact(mirrored)
    ensures forall k :: LastValue(mirrored, k) ==
                        if |k| >= 4 && k[..4] == ['a', 'w', 's', ':'] && LastValue(latest, k).Some? then LastValue(latest, k)
                        else LastValue(desired, k)
  {
    ListExact(Convert(desired) + AwsPart(Convert(latest)), KeyOrder(desired), mirrored);
    forall k
      ensures LastValue(mirrored, k) ==
              if |k| >= 4 && k[..4] == ['a', 'w', 's', ':'] && LastValue(latest, k).Some? then LastValue(latest, k)
              else LastValue(desired, k)
    {
      BeginsWithAws(k);
      LastWins(desired, k);
      LastWins(latest, k);
    }
  }

  lemma BeginsWithAws(k: string)
    ensures IsAws(k) <==> |k| >= 4 && k[..4] == ['a', 'w', 's', ':']
  {
  }

  /** After `FilterSystemTags`: each key once, none of them listed as a system tag or beginning with
      "aws:", and every other key of the input with its last value. */
  lemma FilteredTags(before: seq<TagValue>, systemTags: seq<string>, after: seq<TagValue>)
    requires IsListOf(WithoutSystem(Convert(before), systemTags), KeyOrder(before), after)
    ensures Exact(after)
    ensures forall i :: 0 <= i < |after| ==>
              && after[i].key.value !in systemTags
              && !(|after[i].key.value| >= 4 && after[i].key.value[..4] == ['a', 'w', 's', ':'])
    ensures forall k :: LastValue(after, k) ==
                        if k in systemTags || (|k| >= 4 && k[..4] == ['a', 'w', 's', ':']) then None else LastValue(before, k)
  {
    ListExact(WithoutSystem(Convert(before), systemTags), KeyOrder(before), after);
    forall k
      ensures LastValue(after, k) ==
              if k in systemTags || (|k| >= 4 && k[..4] == ['a', 'w', 's', ':']) then None else LastValue(before, k)
    {
      BeginsWithAws(k);
      LastWins(before, k);
    }
    forall i | 0 <= i < |after|
      ensures LastValue(after, after[i].key.value).Some?
    {
      HasLastValue(after, i);
    }
  }

  lemma {:induction false} HasLastValue(tags: seq<TagValue>, i: nat)
    requires i < |tags| && tags[i].key.Some?
    ensures LastValue(tags, tags[i].key.value).Some?
  {
    if tags[|tags| - 1].key != tags[i].key {
      assert tags[..|tags| - 1][i] == tags[i];
      HasLastValue(tags[..|tags| - 1], i);
    }
  }
}
