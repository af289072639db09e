/** pkg/tags/sync.go: the two-call synchronisation of the backend's tags, with calls that may fail
    after any part of their work. */
module TagSync {
  import opened Values
  import opened Objects
  import opened OrderedTags
  import opened TagPipeline

  /** What an API call does: all of its work, or an error after the part that touches `done`. */
  datatype Call = Succeeds | Fails(done: set<string>, error: Error)

  /* ----- the specification ----- */

  function ToAdd(desired: TagMap, existing: TagMap): TagMap {
    map k | k in desired && (k !in existing || existing[k] != desired[k]) :: desired[k]
  }

  function ToDelete(desired: TagMap, existing: TagMap): TagMap {
    map k | k in existing && k !in desired :: existing[k]
  }

  function Restrict(m: TagMap, keys: set<string>): TagMap {
    map k | k in m && k in keys :: m[k]
  }

  /** RemoveTagsFromCertificate: takes away the key/value pairs it is given. */
  function RemovePairs(backend: TagMap, pairs: TagMap): TagMap {
    map k | k in backend && !(k in pairs && pairs[k] == backend[k]) :: backend[k]
  }

  function RemoveEffect(backend: TagMap, pairs: TagMap, call: Call): TagMap {
    RemovePairs(backend, if call.Fails? then Restrict(pairs, call.done) else pairs)
  }

  /** AddTagsToCertificate: sets each key it is given. */
  function AddEffect(backend: TagMap, pairs: TagMap, call: Call): TagMap {
    backend + (if call.Fails? then Restrict(pairs, call.done) else pairs)
  }

  /** The outcome of one `SyncTags`: the backend's tags after each call made, and the error. */
  datatype SyncOutcome = SyncOutcome(trace: seq<TagMap>, error: Option<Error>) {
    function Final(backend: TagMap): TagMap {
      if trace == [] then backend else trace[|trace| - 1]
    }
  }

  function Sync(desired: TagMap, existing: TagMap, backend: TagMap, remove: Call, add: Call): SyncOutcome {
    Calls(ToDelete(desired, existing), ToAdd(desired, existing), backend, remove, add)
  }

  /** The remove call, then the add call; a call with nothing to do is not made. */
  function Calls(del: TagMap, put: TagMap, backend: TagMap, remove: Call, add: Call): SyncOutcome {
    if del == map[] then AddCall(put, backend, add)
    else
      var removed := RemoveEffect(backend, del, remove);
      if remove.Fails? then SyncOutcome([removed], Some(remove.error))
      else
        var rest := AddCall(put, removed, add);
        SyncOutcome([removed] + rest.trace, rest.error)
  }

  function AddCall(put: TagMap, backend: TagMap, add: Call): SyncOutcome {
    if put == map[] then SyncOutcome([], None)
    else SyncOutcome([AddEffect(backend, put, add)], if add.Fails? then Some(add.error) else None)
  }

  /* ----- the client and the imperative code ----- */

  /** The tag API of one certificate; `history` records the tags after every mutating call. */
  class TagClient {
    var tags: TagMap
    ghost var history: seq<TagMap>

    constructor (tags: TagMap)
      ensures this.tags == tags && history == []
    {
      this.tags, history := tags, [];
    }

    method RemoveTagsFromCertificate(pairs: seq<TagValue>, call: Call) returns (error: Option<Error>)
      modifies this
      ensures tags == RemoveEffect(old(tags), Convert(pairs), call)
      ensures history == old(history) + [tags]
      ensures error == if call.Fails? then Some(call.error) else None
    {
      tags := RemoveEffect(tags, Convert(pairs), call);
      history := history + [tags];
      error := if call.Fails? then Some(call.error) else None;
    }

    method AddTagsToCertificate(pairs: seq<TagValue>, call: Call) returns (error: Option<Error>)
      modifies this
      ensures tags == AddEffect(old(tags), Convert(pairs), call)
      ensures history == old(history) + [tags]
      ensures error == if call.Fails? then Some(call.error) else None
    {
      tags := AddEffect(tags, Convert(pairs), call);
      history := history + [tags];
      error := if call.Fails? then Some(call.error) else None;
    }

    method ListTagsForCertificate(failure: Option<Error>) returns (list: seq<TagValue>, error: Option<Error>)
      ensures error == failure
      ensures error.None? ==> Enumerates(list, tags)
    {
      error := failure;
      list := SdkTags(tags);
    }
  }

  /** The loop of `addTags` and `removeTags`: the entries of a map, in the order it is ranged over. */
  method SdkTags(m: TagMap) returns (list: seq<TagValue>)
    ensures Enumerates(list, m)
  {
    list := [];
    var pending := m.Keys;
    while pending != {}
      invariant pending <= m.Keys
      invariant Enumerates(list, m - pending)
      decreases pending
    {
      var k :| k in pending;
      EnumeratesSnoc(list, m, pending, k);
      list := list + [Entry(k, m[k])];
      pending := pending - {k};
    }
    assert m - pending == m;
  }

  method AddTags(client: TagClient, pairs: TagMap, call: Call) returns (error: Option<Error>)
    modifies client
    ensures client.tags == AddEffect(old(client.tags), pairs, call)
    ensures client.history == old(client.history) + [client.tags]
    ensures error == if call.Fails? then Some(call.error) else None
  {
    var sdkTags := SdkTags(pairs);
    ConvertEnumeration(sdkTags, pairs);
    error := client.AddTagsToCertificate(sdkTags, call);
  }

  method RemoveTags(client: TagClient, pairs: TagMap, call: Call) returns (error: Option<Error>)
    modifies client
    ensures client.tags == RemoveEffect(old(client.tags), pairs, call)
    ensures client.history == old(client.history) + [client.tags]
    ensures error == if call.Fails? then Some(call.error) else None
  {
    var sdkTags := SdkTags(pairs);
    ConvertEnumeration(sdkTags, pairs);
    error := client.RemoveTagsFromCertificate(sdkTags, call);
  }

  /** The maps `SyncTags` builds: keys to value pointers, the last occurrence of a key winning. */
  function Pointers(tags: seq<TagValue>): map<string, Option<string>>
    requires forall i :: 0 <= i < |tags| ==> tags[i].key.Some?
  {
    if tags == [] then map[]
    else
      var t := tags[|tags| - 1];
      Pointers(tags[..|tags| - 1])[t.key.value := t.value]
  }

  /** `SyncTags` dereferences every key, and the value that wins for each key. */
  predicate Syncable(tags: seq<TagValue>) {
    && (forall i :: 0 <= i < |tags| ==> tags[i].key.Some?)
    && (var m := Pointers(tags); forall k :: k in m ==> m[k].Some?)
  }

  lemma {:induction false} PointersConvert(tags: seq<TagValue>)
    requires forall i :: 0 <= i < |tags| ==> tags[i].key.Some?
    ensures Pointers(tags).Keys == Convert(tags).Keys
    ensures forall k :: k in Convert(tags) ==> Convert(tags)[k] == (if Pointers(tags)[k].Some? then Pointers(tags)[k].value else "")
  {
    if tags != [] {
      PointersConvert(tags[..|tags| - 1]);
    }
  }

  /** The pointer map of a list `SyncTags` can work on: it stands for the same map as the list. */
  method CollectTags(tags: seq<Tag>) returns (m: map<string, Option<string>>)
    requires Syncable(TagValues(tags))
    ensures m.Keys == Convert(TagValues(tags)).Keys
    ensures forall k :: k in m ==> m[k] == Some(Convert(TagValues(tags))[k])
  {
    m := map[];
    ghost var values := TagValues(tags);
    for i := 0 to |tags|
      invariant m == Pointers(values[..i])
    {
      assert values[..i + 1][..i] == values[..i];
      assert values[i].key == tags[i].key;
      m := m[tags[i].key.value := tags[i].value];
    }
    assert values[..|tags|] == values;
    PointersConvert(values);
  }

  /** The first half of `SyncTags`: what to add and what to remove. */
  method PlanCalls(aTags: seq<Tag>, bTags: seq<Tag>) returns (toAdd: TagMap, toDelete: TagMap)
    requires Syncable(TagValues(aTags)) && Syncable(TagValues(bTags))
    ensures toAdd == ToAdd(Convert(TagValues(aTags)), Convert(TagValues(bTags)))
    ensures toDelete == ToDelete(Convert(TagValues(aTags)), Convert(TagValues(bTags)))
  {
    ghost var d, e := Convert(TagValues(aTags)), Convert(TagValues(bTags));
    var desiredTags := CollectTags(aTags);
    var existingTags := CollectTags(bTags);
    toAdd := Missing(desiredTags, existingTags, d, e);
    toDelete := Surplus(desiredTags, existingTags, d, e);
  }

  method SyncTags(client: TagClient, aTags: seq<Tag>, bTags: seq<Tag>, remove: Call, add: Call) returns (error: Option<Error>)
    requires Syncable(TagValues(aTags)) && Syncable(TagValues(bTags))
    modifies client
    ensures var outcome := Sync(Convert(TagValues(aTags)), Convert(TagValues(bTags)), old(client.tags), remove, add);
            && client.tags == outcome.Final(old(client.tags))
            && client.history == old(client.history) + outcome.trace
            && error == outcome.error
  {
    var toAdd, toDelete := PlanCalls(aTags, bTags);
    ghost var outcome := Calls(toDelete, toAdd, client.tags, remove, add);
    error := MakeCalls(client, toDelete, toAdd, remove, add, outcome);
  }

  /** The second half of `SyncTags`: remove before add, stopping at the first error. */
  method MakeCalls(client: TagClient, toDelete: TagMap, toAdd: TagMap, remove: Call, add: Call, ghost outcome: SyncOutcome)
    returns (error: Option<Error>)
    requires outcome == Calls(toDelete, toAdd, client.tags, remove, add)
    modifies client
    ensures client.tags == outcome.Final(old(client.tags))
    ensures client.history == old(client.history) + outcome.trace
    ensures error == outcome.error
  {
    error := None;
    if |toDelete| > 0 {
      error := RemoveTags(client, toDelete, remove);
      if error != None {
        return;
      }
    }
    if |toAdd| > 0 {
      error := AddTags(client, toAdd, add);
    }
  }

  /** The loop over the desired tags, in whatever order the map is ranged over. */
  method Missing(desired: map<string, Option<string>>, existing: map<string, Option<string>>, ghost d: TagMap, ghost e: TagMap)
    returns (toAdd: TagMap)
    requires desired.Keys == d.Keys && existing.Keys == e.Keys
    requires forall k :: k in d ==> desired[k] == Some(d[k])
    requires forall k :: k in e ==> existing[k] == Some(e[k])
    ensures toAdd == ToAdd(d, e)
  {
    toAdd := map[];
    var pending := desired.Keys;
    while pending != {}
      invariant pending <= desired.Keys
      invariant toAdd == ToAdd(d - pending, e)
      decreases pending
    {
      var k :| k in pending;
      if k !in existing || existing[k].value != desired[k].value {
        toAdd := toAdd[k := desired[k].value];
      }
      pending := pending - {k};
    }
    assert d - pending == d;
  }

  /** The loop over the existing tags. */
  method Surplus(desired: map<string, Option<string>>, existing: map<string, Option<string>>, ghost d: TagMap, ghost e: TagMap)
    returns (toDelete: TagMap)
    requires desired.Keys == d.Keys && existing.Keys == e.Keys
    requires forall k :: k in e ==> existing[k] == Some(e[k])
    ensures toDelete == ToDelete(d, e)
  {
    toDelete := map[];
    var pending := existing.Keys;
    while pending != {}
      invariant pending <= existing.Keys
      invariant toDelete == ToDelete(d, e - pending)
      decreases pending
    {
      var k :| k in pending;
      if k !in desired {
        toDelete := toDelete[k := existing[k].value];
      }
      pending := pending - {k};
    }
    assert e - pending == e;
  }

  /** Whatever list `fromACKTags` or a listing gives, `SyncTags` can work on it. */
  lemma GivenIsSyncable(tags: seq<TagValue>)
    requires AllGiven(tags)
    ensures Syncable(tags)
  {
    PointersGiven(tags);
  }

  ghost predicate AllGiven(tags: seq<TagValue>) {
    forall t :: t in tags ==> t.key.Some? && t.value.Some?
  }

  lemma {:induction false} PointersGiven(tags: seq<TagValue>)
    requires AllGiven(tags)
    ensures forall k :: k in Pointers(tags) ==> Pointers(tags)[k].Some?
  {
    if tags != [] {
      assert tags[|tags| - 1] in tags;
      PointersGiven(tags[..|tags| - 1]);
    }
  }

  lemma {:induction false} EnumerationGiven(list: seq<TagValue>, m: TagMap)
    requires Enumerates(list, m)
    ensures AllGiven(list)
  {
    if list != [] {
      var n := |list| - 1;
      EnumerationGiven(list[..n], m - {list[n].key.value});
      assert list == list[..n] + [list[n]];
    }
  }

  lemma {:induction false} OrderedGiven(m: TagMap, order: seq<string>)
    ensures AllGiven(Ordered(m, order))
  {
    if order != [] {
      OrderedGiven(if order[0] in m then m - {order[0]} else m, order[1..]);
    }
  }

  lemma ListGiven(m: TagMap, order: seq<string>, list: seq<TagValue>)
    requires IsListOf(m, order, list)
    ensures AllGiven(list)
  {
    var head := Ordered(m, order);
    OrderedGiven(m, order);
    EnumerationGiven(list[|head|..], m - Keys(order));
    assert list == head + list[|head|..];
  }

  /* ----- comparing and acting agree ----- */

  /** The keys on which two maps differ. */
  ghost function DifferingKeys(a: TagMap, b: TagMap): set<string> {
    set k | k in a.Keys + b.Keys && !(k in a && k in b && a[k] == b[k])
  }

  lemma CompareActAgree(desired: TagMap, existing: TagMap, backend: TagMap, remove: Call, add: Call)
    ensures Sync(desired, existing, backend, remove, add).trace != [] <==> desired != existing
    ensures ToAdd(desired, existing).Keys !! ToDelete(desired, existing).Keys
    ensures ToAdd(desired, existing).Keys + ToDelete(desired, existing).Keys == DifferingKeys(desired, existing)
  {
    var put, del := ToAdd(desired, existing), ToDelete(desired, existing);
    assert put.Keys + del.Keys == DifferingKeys(desired, existing);
    if put == map[] && del == map[] {
      assert DifferingKeys(desired, existing) == {};
      assert forall k :: k in desired.Keys + existing.Keys ==> k !in DifferingKeys(desired, existing);
      assert desired.Keys == existing.Keys;
      assert desired == existing;
    }
  }

  /** Which calls a synchronisation makes, and which error it returns: removing comes first, a failed
      removal is the answer, and adding is not attempted after it. */
  lemma SyncAnswers(desired: TagMap, existing: TagMap, backend: TagMap, remove: Call, add: Call)
    ensures var removing := exists k :: k in existing && k !in desired;
            var adding := exists k :: k in desired && !(k in existing && existing[k] == desired[k]);
            var sync := Sync(desired, existing, backend, remove, add);
            if removing && remove.Fails? then |sync.trace| == 1 && sync.error == Some(remove.error)
            else
              && |sync.trace| == (if removing then 1 else 0) + (if adding then 1 else 0)
              && sync.error == if adding && add.Fails? then Some(add.error) else None
  {
    var del, put := ToDelete(desired, existing), ToAdd(desired, existing);
    if del != map[] {
      var k :| k in del;
      assert k in existing && k !in desired;
    }
    if put != map[] {
      var k :| k in put;
      assert k in desired && !(k in existing && existing[k] == desired[k]);
    }
    assert forall k :: k in existing && k !in desired ==> k in del;
    assert forall k :: k in desired && !(k in existing && existing[k] == desired[k]) ==> k in put;
  }

  /** After `mirrorAWSTags` an `aws:` key is added exactly when the user's own list has one that the
      latest list lacks, and none is ever removed; every other desired entry is what it was. */
  lemma AwsTagsLeftAlone(desired: seq<TagValue>, latest: seq<TagValue>, mirrored: seq<TagValue>)
    requires IsListOf(Convert(desired) + AwsPart(Convert(latest)), KeyOrder(desired), mirrored)
    ensures forall k :: IsAws(k) ==>
              && (k in ToAdd(Convert(mirrored), Convert(latest)) <==> k in Convert(desired) && k !in Convert(latest))
              && k !in ToDelete(Convert(mirrored), Convert(latest))
    ensures forall k :: !IsAws(k) ==> (k in Convert(mirrored) <==> k in Convert(desired))
    ensures forall k :: !IsAws(k) && k in Convert(desired) ==> Convert(mirrored)[k] == Convert(desired)[k]
  {
    ConvertListOf(Convert(desired) + AwsPart(Convert(latest)), KeyOrder(desired), mirrored);
  }

  /* ----- what one call leaves, whatever listing it worked from ----- */

  /** On key `k` the listing and the backend differ in a way one call does not repair. */
  predicate Drifted(desired: TagMap, existing: TagMap, backend: TagMap, k: string) {
    if k in desired then
      k in existing && existing[k] == desired[k] && !(k in backend && backend[k] == desired[k])
    else
      k in backend && !(k in existing && existing[k] == backend[k])
  }

  /** A call without an error leaves exactly the desired tags if and only if no key has drifted. */
  lemma SyncCompletes(desired: TagMap, existing: TagMap, backend: TagMap, remove: Call, add: Call)
    requires Sync(desired, existing, backend, remove, add).error.None?
    ensures Sync(desired, existing, backend, remove, add).Final(backend) == desired
       <==> forall k :: k in desired.Keys + backend.Keys ==> !Drifted(desired, existing, backend, k)
  {
    var final := Sync(desired, existing, backend, remove, add).Final(backend);
    assert final == SyncedTags(desired, existing, backend) by {
      SyncedFinal(desired, existing, backend, remove, add);
    }
    forall k | k in desired.Keys + backend.Keys
      ensures Drifted(desired, existing, backend, k) <==> !(if k in desired then k in final && final[k] == desired[k] else k !in final)
    {
    }
    if forall k :: k in desired.Keys + backend.Keys ==> !Drifted(desired, existing, backend, k) {
      assert final == desired;
    } else {
      var k :| k in desired.Keys + backend.Keys && Drifted(desired, existing, backend, k);
      assert final != desired;
    }
  }

  function SyncedTags(desired: TagMap, existing: TagMap, backend: TagMap): TagMap {
    RemovePairs(backend, ToDelete(desired, existing)) + ToAdd(desired, existing)
  }

  lemma SyncedFinal(desired: TagMap, existing: TagMap, backend: TagMap, remove: Call, add: Call)
    requires Sync(desired, existing, backend, remove, add).error.None?
    ensures Sync(desired, existing, backend, remove, add).Final(backend) == SyncedTags(desired, existing, backend)
  {
  }

  /** A tag whose key neither list mentions is never touched, whether calls fail or not. */
  lemma OthersUntouched(desired: TagMap, existing: TagMap, backend: TagMap, remove: Call, add: Call, k: string, i: nat)
    requires k !in desired && k !in existing && i < |Sync(desired, existing, backend, remove, add).trace|
    ensures var m := Sync(desired, existing, backend, remove, add).trace[i];
            (k in m <==> k in backend) && (k in backend ==> m[k] == backend[k])
  {
  }

  /* ----- failures, retries and the tag limit ----- */

  /** For each key `m` holds the value it had in `from`, the value it has in `to`, or nothing;
      what `from` and `to` agree on is there throughout. */
  ghost predicate Between(from: TagMap, to: TagMap, m: TagMap) {
    && (forall k :: k in m ==> (k in from && m[k] == from[k]) || (k in to && m[k] == to[k]))
    && (forall k :: k in from && k in to && from[k] == to[k] ==> k in m)
  }

  function Larger(a: nat, b: nat): nat {
    if a < b then b else a
  }

  datatype Attempt = Attempt(remove: Call, add: Call)

  /** Attempts from a fresh listing each, until one succeeds or there are none left. */
  function Retry(desired: TagMap, backend: TagMap, attempts: seq<Attempt>): SyncOutcome
    decreases |attempts|
  {
    if attempts == [] then SyncOutcome([], None)
    else
      var first := Sync(desired, backend, backend, attempts[0].remove, attempts[0].add);
      if first.error.None? || |attempts| == 1 then first
      else
        var rest := Retry(desired, first.Final(backend), attempts[1..]);
        SyncOutcome(first.trace + rest.trace, rest.error)
  }

  /** Every state of a synchronisation on the way from `backend` to `desired` is a safe one. */
  ghost predicate SafeTrace(desired: TagMap, backend: TagMap, trace: seq<TagMap>) {
    forall i :: 0 <= i < |trace| ==> Between(backend, desired, trace[i]) && |trace[i]| <= Larger(|backend|, |desired|)
  }

  lemma RemoveNothing(backend: TagMap)
    ensures RemovePairs(backend, map[]) == backend
  {
  }

  lemma OneAttemptSafe(desired: TagMap, backend: TagMap, remove: Call, add: Call)
    ensures SafeTrace(desired, backend, Sync(desired, backend, backend, remove, add).trace)
  {
    RemoveNothing(backend);
    RemovalSafe(desired, backend, remove);
    AdditionSafe(desired, backend, add);
    CallsTrace(ToDelete(desired, backend), ToAdd(desired, backend), backend, remove, add);
  }

  /** The states a pair of calls goes through. */
  lemma CallsTrace(del: TagMap, put: TagMap, backend: TagMap, remove: Call, add: Call)
    ensures forall i :: 0 <= i < |Calls(del, put, backend, remove, add).trace| ==>
              var m := Calls(del, put, backend, remove, add).trace[i];
              m == RemoveEffect(backend, del, remove) || m == AddEffect(RemovePairs(backend, del), put, add)
  {
    if del == map[] {
      RemoveNothing(backend);
      assert RemovePairs(backend, del) == backend;
    }
  }

  /** With a listing that matches the backend, a call without an error leaves the desired tags. */
  lemma FreshListingCompletes(desired: TagMap, backend: TagMap, remove: Call, add: Call)
    requires Sync(desired, backend, backend, remove, add).error.None?
    ensures Sync(desired, backend, backend, remove, add).Final(backend) == desired
  {
    SyncCompletes(desired, backend, backend, remove, add);
  }

  lemma RemovalSafe(desired: TagMap, backend: TagMap, remove: Call)
    ensures var m := RemoveEffect(backend, ToDelete(desired, backend), remove);
            Between(backend, desired, m) && |m| <= |backend|
  {
    Sizes(RemoveEffect(backend, ToDelete(desired, backend), remove), backend);
  }

  lemma AdditionSafe(desired: TagMap, backend: TagMap, add: Call)
    ensures var m := AddEffect(RemovePairs(backend, ToDelete(desired, backend)), ToAdd(desired, backend), add);
            Between(backend, desired, m) && |m| <= |desired|
  {
    Sizes(AddEffect(RemovePairs(backend, ToDelete(desired, backend)), ToAdd(desired, backend), add), desired);
  }

  lemma Sizes(a: TagMap, b: TagMap)
    ensures a.Keys <= b.Keys ==> |a| <= |b|
  {
    if a.Keys <= b.Keys {
      SubsetSize(a.Keys, b.Keys);
    }
  }

  lemma {:induction false} SubsetSize(a: set<string>, b: set<string>)
    requires a <= b
    ensures |a| <= |b|
  {
    if a != {} {
      var x :| x in a;
      SubsetSize(a - {x}, b - {x});
    }
  }

  /** However often and however far calls fail: every state on the way lies between the old and the
      desired tags and within the larger of the two counts, and the first success ends at the desired tags. */
  lemma {:induction false} RetriesConverge(desired: TagMap, backend: TagMap, attempts: seq<Attempt>)
    requires attempts != []
    ensures var outcome := Retry(desired, backend, attempts);
            && (outcome.error.None? ==> outcome.Final(backend) == desired)
            && SafeTrace(desired, backend, outcome.trace)
    decreases |attempts|
  {
    var first := Sync(desired, backend, backend, attempts[0].remove, attempts[0].add);
    OneAttemptSafe(desired, backend, attempts[0].remove, attempts[0].add);
    if first.error.None? {
      FreshListingCompletes(desired, backend, attempts[0].remove, attempts[0].add);
    } else if |attempts| > 1 {
      FailureMakesACall(ToDelete(desired, backend), ToAdd(desired, backend), backend, attempts[0].remove, attempts[0].add);
      RetriesConverge(desired, first.Final(backend), attempts[1..]);
      SafeContinuation(desired, backend, first, Retry(desired, first.Final(backend), attempts[1..]));
      FinalAppend(backend, first, Retry(desired, first.Final(backend), attempts[1..]));
    }
  }

  lemma FailureMakesACall(del: TagMap, put: TagMap, backend: TagMap, remove: Call, add: Call)
    ensures Calls(del, put, backend, remove, add).error.Some? ==> Calls(del, put, backend, remove, add).trace != []
  {
  }

  lemma BetweenTransitive(from: TagMap, to: TagMap, middle: TagMap, m: TagMap)
    requires Between(from, to, middle) && Between(middle, to, m)
    ensures Between(from, to, m)
  {
  }

  /** The state a sequence of outcomes ends in. */
  lemma FinalAppend(backend: TagMap, first: SyncOutcome, rest: SyncOutcome)
    ensures SyncOutcome(first.trace + rest.trace, rest.error).Final(backend) == rest.Final(first.Final(backend))
  {
    if rest.trace == [] {
      assert first.trace + rest.trace == first.trace;
    }
  }

  /** A failed attempt followed by a safe continuation from where it stopped. */
  lemma SafeContinuation(desired: TagMap, backend: TagMap, first: SyncOutcome, rest: SyncOutcome)
    requires first.trace != [] && SafeTrace(desired, backend, first.trace)
    requires SafeTrace(desired, first.Final(backend), rest.trace)
    ensures SafeTrace(desired, backend, first.trace + rest.trace)
  {
    var middle := first.Final(backend);
    assert Between(backend, desired, middle) && |middle| <= Larger(|backend|, |desired|);
    forall i | 0 <= i < |rest.trace|
      ensures Between(backend, desired, rest.trace[i]) && |rest.trace[i]| <= Larger(|backend|, |desired|)
    {
      BetweenTransitive(backend, desired, middle, rest.trace[i]);
    }
  }
}
