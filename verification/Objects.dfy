/** The mutable objects of the API types, and the generated deep copies. */
module Objects {
  import opened Values

  class Tag {
    var key: Option<string>
    var value: Option<string>

    constructor (key: Option<string>, value: Option<string>)
      ensures this.key == key && this.value == value
    {
      this.key, this.value := key, value;
    }

    function Value(): TagValue
      reads this
    {
      TagValue(key, value)
    }
  }

  class Condition {
    var kind: ConditionKind
    var status: ConditionStatus
    var message: Option<string>
    var reason: Option<string>

    constructor (value: ConditionValue)
      ensures Value() == value
    {
      kind, status, message, reason := value.kind, value.status, value.message, value.reason;
    }

    function Value(): ConditionValue
      reads this
    {
      ConditionValue(kind, status, message, reason)
    }
  }

  function TagValues(tags: seq<Tag>): (values: seq<TagValue>)
    reads tags
    ensures |values| == |tags|
    ensures forall i :: 0 <= i < |tags| ==> values[i] == tags[i].Value()
  {
    seq(|tags|, i requires 0 <= i < |tags| reads tags => tags[i].Value())
  }

  function ConditionValues(conditions: seq<Condition>): (values: seq<ConditionValue>)
    reads conditions
    ensures |values| == |conditions|
    ensures forall i :: 0 <= i < |conditions| ==> values[i] == conditions[i].Value()
  {
    seq(|conditions|, i requires 0 <= i < |conditions| reads conditions => conditions[i].Value())
  }

  ghost predicate Distinct<T>(s: seq<T>) {
    forall i, j :: 0 <= i < j < |s| ==> s[i] != s[j]
  }

  /** A Certificate resource: the object the controller's `resource` wraps. */
  class Certificate {
    var namespace: string
    var spec: Spec
    var tags: seq<Tag>
    var status: Status
    var conditions: seq<Condition>

    constructor (namespace: string, spec: Spec, tags: seq<Tag>, status: Status, conditions: seq<Condition>)
      ensures this.namespace == namespace && this.spec == spec && this.tags == tags
      ensures this.status == status && this.conditions == conditions
    {
      this.namespace, this.spec, this.tags := namespace, spec, tags;
      this.status, this.conditions := status, conditions;
    }

    function Value(): CertificateValue
      reads this, tags, conditions
    {
      CertificateValue(namespace, spec, TagValues(tags), status, ConditionValues(conditions))
    }

    /** Copies the resource: the same value, on objects that are all new and pairwise different. */
    method DeepCopy() returns (copy: Certificate)
      ensures copy.Value() == Value()
      ensures fresh(copy) && (forall t :: t in copy.tags ==> fresh(t)) && (forall c :: c in copy.conditions ==> fresh(c))
      ensures Distinct(copy.conditions) && Distinct(copy.tags)
    {
      var copiedTags := CopyTags(tags);
      var copiedConditions := CopyConditions(conditions);
      copy := new Certificate(namespace, spec, copiedTags, status, copiedConditions);
    }
  }

  /** A deep copy with the status defaults set, the start of every update of a resource. */
  method CopyWithDefaults(rm: Identity, r: Certificate) returns (ko: Certificate)
    ensures ko.Value() == r.Value().(status := WithDefaults(r.status, rm))
    ensures fresh(ko) && (forall t :: t in ko.tags ==> fresh(t)) && (forall c :: c in ko.conditions ==> fresh(c))
    ensures Distinct(ko.conditions)
  {
    ko := r.DeepCopy();
    ghost var copied := ko.Value();
    ko.status := WithDefaults(ko.status, rm);
    assert ko.Value() == copied.(status := ko.status);
  }

  /** The Tags loop of `CertificateSpec.DeepCopyInto`: nil entries stay nil. */
  method CopyTags(input: seq<Tag?>) returns (output: seq<Tag?>)
    ensures |output| == |input|
    ensures forall i :: 0 <= i < |input| ==>
              if input[i] == null then output[i] == null
              else output[i] != null && fresh(output[i]) && output[i].Value() == input[i].Value()
    ensures forall i, j :: 0 <= i < j < |input| && output[i] != null ==> output[i] != output[j]
  {
    var out := new Tag?[|input|](_ => null);
    for i := 0 to |input|
      invariant forall k :: i <= k < |input| ==> out[k] == null
      invariant forall k :: 0 <= k < i ==>
                  if input[k] == null then out[k] == null
                  else out[k] != null && fresh(out[k]) && out[k].Value() == input[k].Value()
      invariant forall k, l :: 0 <= k < l < i && out[k] != null ==> out[k] != out[l]
    {
      if input[i] != null {
        out[i] := new Tag(input[i].key, input[i].value);
      }
    }
    output := out[..];
  }

  /** The Conditions loop of `CertificateStatus.DeepCopyInto`. */
  method CopyConditions(input: seq<Condition?>) returns (output: seq<Condition?>)
    ensures |output| == |input|
    ensures forall i :: 0 <= i < |input| ==>
              if input[i] == null then output[i] == null
              else output[i] != null && fresh(output[i]) && output[i].Value() == input[i].Value()
    ensures forall i, j :: 0 <= i < j < |input| && output[i] != null ==> output[i] != output[j]
  {
    var out := new Condition?[|input|](_ => null);
    for i := 0 to |input|
      invariant forall k :: i <= k < |input| ==> out[k] == null
      invariant forall k :: 0 <= k < i ==>
                  if input[k] == null then out[k] == null
                  else out[k] != null && fresh(out[k]) && out[k].Value() == input[k].Value()
      invariant forall k, l :: 0 <= k < l < i && out[k] != null ==> out[k] != out[l]
    {
      if input[i] != null {
        out[i] := new Condition(input[i].Value());
      }
    }
    output := out[..];
  }
}
