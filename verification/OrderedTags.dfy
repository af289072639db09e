/** The tag lists of pkg/resource/certificate/tags.go: the conversions between an ordered tag
    list and a map, and the pipeline EnsureTags, mirrorAWSTags, FilterSystemTags built on them. */
module OrderedTags {
  import opened Values
  import opened Objects

  type TagMap = map<string, string>

  /* ----- what the conversions compute ----- */

  /** The map a tag list stands for: the last occurrence of a key wins, a nil value reads as "". */
  function Convert(tags: seq<TagValue>): TagMap {
    if tags == [] then map[]
    else
      var t := tags[|tags| - 1];
      var m := Convert(tags[..|tags| - 1]);
      if t.key.Some? then m[t.key.value := ValueOf(t)] else m
  }

  function ValueOf(t: TagValue): string {
    if t.value.Some? then t.value.value else ""
  }

  /** The keys of a tag list in order, duplicates included. */
  function KeyOrder(tags: seq<TagValue>): seq<string> {
    if tags == [] then []
    else
      var t := tags[|tags| - 1];
      var keys := KeyOrder(tags[..|tags| - 1]);
      if t.key.Some? then keys + [t.key.value] else keys
  }

  function Entry(k: string, v: string): TagValue {
    TagValue(Some(k), Some(v))
  }

  /** The entries of `m` whose keys `order` lists, each at the first place it is listed. */
  function Ordered(m: TagMap, order: seq<string>): seq<TagValue> {
    if order == [] then []
    else if order[0] in m then [Entry(order[0], m[order[0]])] + Ordered(m - {order[0]}, order[1..])
    else Ordered(m, order[1..])
  }

  ghost function Keys(order: seq<string>): set<string> {
    set k | k in order
  }

  /** `list` holds each entry of `m` once, in some order: any order Go may range over `m` in. */
  ghost predicate Enumerates(list: seq<TagValue>, m: TagMap) {
    if list == [] then m == map[]
    else
      var t := list[|list| - 1];
      t.key.Some? && t.key.value in m && t == Entry(t.key.value, m[t.key.value]) &&
      Enumerates(list[..|list| - 1], m - {t.key.value})
  }

  /** `list` is a possible result of `fromACKTags(m, order)`. */
  ghost predicate IsListOf(m: TagMap, order: seq<string>, list: seq<TagValue>) {
    var head := Ordered(m, order);
    head <= list && Enumerates(list[|head|..], m - Keys(order))
  }

  const AWS_PREFIX := "aws:"

  predicate IsAws(k: string) {
    AWS_PREFIX <= k
  }

  function AwsPart(m: TagMap): TagMap {
    map k | k in m && IsAws(k) :: m[k]
  }

  predicate IsSystem(k: string, systemTags: seq<string>) {
    IsAws(k) || k in systemTags
  }

  function WithoutSystem(m: TagMap, systemTags: seq<string>): TagMap {
    map k | k in m && !IsSystem(k, systemTags) :: m[k]
  }

  /** `acktags.Merge`: the entries of both maps, the first map winning. */
  function Merge(a: TagMap, b: TagMap): TagMap {
    b + a
  }

  /* ----- the imperative conversions ----- */

  /** The runtime's `acktags.Tags`, a map the functions of tags.go update through their argument. */
  class AckTags {
    var entries: TagMap

    constructor ()
      ensures entries == map[]
    {
      entries := map[];
    }
  }

  method ConvertToOrderedACKTags(tags: seq<Tag>) returns (result: AckTags, keyOrder: seq<string>)
    ensures fresh(result)
    ensures result.entries == Convert(TagValues(tags))
    ensures keyOrder == KeyOrder(TagValues(tags))
  {
    result := new AckTags();
    keyOrder := [];
    ghost var values := TagValues(tags);
    if |tags| == 0 {
      return;
    }
    for i := 0 to |tags|
      invariant fresh(result)
      invariant result.entries == Convert(values[..i])
      invariant keyOrder == KeyOrder(values[..i])
    {
      var t := tags[i];
      assert values[..i + 1][..i] == values[..i];
      if t.key != None {
        keyOrder := keyOrder + [t.key.value];
        if t.value != None {
          result.entries := result.entries[t.key.value := t.value.value];
        } else {
          result.entries := result.entries[t.key.value := ""];
        }
      }
    }
    assert values[..|tags|] == values;
  }

  method FromACKTags(tags: AckTags, keyOrder: seq<string>) returns (result: seq<Tag>)
    modifies tags
    ensures tags.entries == old(tags.entries) - Keys(keyOrder)
    ensures forall t :: t in result ==> fresh(t)
    ensures IsListOf(old(tags.entries), keyOrder, TagValues(result))
  {
    result := [];
    ghost var whole := Ordered(tags.entries, keyOrder);
    for i := 0 to |keyOrder|
      invariant forall t :: t in result ==> fresh(t)
      invariant TagValues(result) + Ordered(tags.entries, keyOrder[i..]) == whole
      invariant tags.entries == old(tags.entries) - Keys(keyOrder[..i])
    {
      var k := keyOrder[i];
      assert keyOrder[i..][1..] == keyOrder[i + 1..];
      assert Keys(keyOrder[..i + 1]) == Keys(keyOrder[..i]) + {k};
      if k in tags.entries {
        result := AppendTag(result, k, tags.entries[k]);
        tags.entries := tags.entries - {k};
      }
    }
    assert keyOrder[..|keyOrder|] == keyOrder;
    result := AppendRemaining(tags, result);
  }

  method AppendTag(list: seq<Tag>, k: string, v: string) returns (result: seq<Tag>)
    ensures |result| == |list| + 1 && fresh(result[|list|]) && result == list + [result[|list|]]
    ensures TagValues(result) == TagValues(list) + [Entry(k, v)]
  {
    var tag := new Tag(Some(k), Some(v));
    result := list + [tag];
  }

  /** The second loop of `fromACKTags`: the entries left in the map, in whatever order it ranges. */
  method AppendRemaining(tags: AckTags, list: seq<Tag>) returns (result: seq<Tag>)
    ensures forall t :: t in result ==> t in list || fresh(t)
    ensures TagValues(list) <= TagValues(result)
    ensures Enumerates(TagValues(result)[|list|..], tags.entries)
  {
    result := list;
    var pending := tags.entries.Keys;
    ghost var tail := [];
    while pending != {}
      invariant pending <= tags.entries.Keys
      invariant forall t :: t in result ==> t in list || fresh(t)
      invariant TagValues(result) == TagValues(list) + tail
      invariant Enumerates(tail, tags.entries - pending)
      decreases pending
    {
      var k :| k in pending;
      result := AppendTag(result, k, tags.entries[k]);
      EnumeratesSnoc(tail, tags.entries, pending, k);
      tail := tail + [Entry(k, tags.entries[k])];
      pending := pending - {k};
    }
    assert tags.entries - pending == tags.entries;
    assert TagValues(result)[|list|..] == tail;
  }

  lemma EnumeratesSnoc(list: seq<TagValue>, m: TagMap, pending: set<string>, k: string)
    requires Enumerates(list, m - pending) && k in pending && pending <= m.Keys
    ensures Enumerates(list + [Entry(k, m[k])], m - (pending - {k}))
  {
    var longer := list + [Entry(k, m[k])];
    assert longer[..|longer| - 1] == list;
    assert (m - (pending - {k})) - {k} == m - pending;
  }

  method IgnoreSystemTags(tags: AckTags, systemTags: seq<string>)
    modifies tags
    ensures tags.entries == WithoutSystem(old(tags.entries), systemTags)
  {
    var pending := tags.entries.Keys;
    while pending != {}
      invariant pending <= tags.entries.Keys
      invariant tags.entries ==
                map k | k in old(tags.entries) && (k in pending || !IsSystem(k, systemTags)) :: old(tags.entries)[k]
      decreases pending
    {
      var k :| k in pending;
      pending := pending - {k};
      if AWS_PREFIX <= k || k in systemTags {
        tags.entries := tags.entries - {k};
      }
    }
  }

  lemma AwsPartStep(m: TagMap, pending: set<string>, k: string)
    requires k in pending && k in m
    ensures AwsPart(m - (pending - {k})) == if IsAws(k) then AwsPart(m - pending)[k := m[k]] else AwsPart(m - pending)
  {
  }

  method SyncAWSTags(a: AckTags, b: AckTags)
    modifies a
    ensures a.entries == old(a.entries) + AwsPart(old(b.entries))
  {
    ghost var source := b.entries;
    var pending := b.entries.Keys;
    while pending != {}
      invariant pending <= source.Keys
      invariant a != b ==> b.entries == source
      invariant a.entries == old(a.entries) + AwsPart(source - pending)
      decreases pending
    {
      var k :| k in pending;
      assert k in b.entries && b.entries[k] == source[k];
      if AWS_PREFIX <= k {
        a.entries := a.entries[k := b.entries[k]];
      }
      AwsPartStep(source, pending, k);
      pending := pending - {k};
    }
    assert source - pending == source;
  }

  /* ----- the three steps of the pipeline ----- */

  method EnsureTags(ko: Certificate, defaultTags: TagMap)
    modifies ko`tags
    ensures IsListOf(Merge(Convert(old(TagValues(ko.tags))), defaultTags), KeyOrder(old(TagValues(ko.tags))), TagValues(ko.tags))
    ensures forall t :: t in ko.tags ==> fresh(t)
  {
    var resourceTags, keyOrder := ConvertToOrderedACKTags(ko.tags);
    var merged := new AckTags();
    merged.entries := Merge(resourceTags.entries, defaultTags);
    ko.tags := FromACKTags(merged, keyOrder);
  }

  method FilterSystemTags(ko: Certificate?, systemTags: seq<string>)
    modifies (if ko == null then {} else {ko})`tags
    ensures ko != null ==>
              IsListOf(WithoutSystem(Convert(old(TagValues(ko.tags))), systemTags), KeyOrder(old(TagValues(ko.tags))), TagValues(ko.tags))
    ensures ko != null ==> forall t :: t in ko.tags ==> fresh(t)
  {
    if ko == null {
      return;
    }
    var resourceTags, keyOrder := ConvertToOrderedACKTags(ko.tags);
    IgnoreSystemTags(resourceTags, systemTags);
    ko.tags := FromACKTags(resourceTags, keyOrder);
  }

  method MirrorAWSTags(a: Certificate?, b: Certificate?)
    modifies (if a == null || b == null then {} else {a})`tags
    ensures a != null && b != null ==>
              IsListOf(Convert(old(TagValues(a.tags))) + AwsPart(Convert(old(TagValues(b.tags)))),
                       KeyOrder(old(TagValues(a.tags))), TagValues(a.tags))
    ensures a != null && b != null ==> forall t :: t in a.tags ==> fresh(t)
  {
    if a == null || b == null {
      return;
    }
    ghost var mine, theirs := TagValues(a.tags), TagValues(b.tags);
    var desiredTags, desiredTagKeyOrder := ConvertToOrderedACKTags(a.tags);
    var latestTags, _ := ConvertToOrderedACKTags(b.tags);
    assert latestTags.entries == Convert(theirs);
    SyncAWSTags(desiredTags, latestTags);
    assert desiredTags.entries == Convert(mine) + AwsPart(Convert(theirs));
    a.tags := FromACKTags(desiredTags, desiredTagKeyOrder);
  }
}
