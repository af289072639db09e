/** What any number of `updateConditions` calls keeps, and what the conditions then say. */
module ConditionRuns {
  import opened Values
  import opened Conditions

  /** The three kinds `updateConditions` manages. */
  predicate Managed(kind: ConditionKind) {
    kind == Terminal || kind == Recoverable || kind == ResourceSynced
  }

  ghost predicate AtMostOne(cs: seq<ConditionValue>, kind: ConditionKind) {
    forall i, j :: 0 <= i < j < |cs| ==> !(cs[i].kind == kind && cs[j].kind == kind)
  }

  ghost predicate Unique(cs: seq<ConditionValue>) {
    AtMostOne(cs, Terminal) && AtMostOne(cs, Recoverable) && AtMostOne(cs, ResourceSynced)
  }

  /** How many of the managed kinds have no condition yet. */
  function Absent(cs: seq<ConditionValue>): nat {
    (if LastOf(cs, Terminal) < 0 then 1 else 0) +
    (if LastOf(cs, Recoverable) < 0 then 1 else 0) +
    (if LastOf(cs, ResourceSynced) < 0 then 1 else 0)
  }

  /** `after` has the entries of `before` at their places, with kind and reason kept and entries of
      unmanaged kinds unchanged, followed by one new entry for each kind that is no longer absent. */
  ghost predicate Extends(before: seq<ConditionValue>, after: seq<ConditionValue>) {
    && |after| == |before| + Absent(before) - Absent(after)
    && |before| <= |after|
    && (forall i :: 0 <= i < |before| ==>
          && after[i].kind == before[i].kind && after[i].reason == before[i].reason
          && (!Managed(before[i].kind) ==> after[i] == before[i]))
    && (forall i :: |before| <= i < |after| ==> Managed(after[i].kind))
    && (Unique(before) ==> Unique(after))
  }

  lemma SetLast(cs: seq<ConditionValue>, i: nat, status: ConditionStatus, message: Option<string>, k: ConditionKind)
    requires i < |cs|
    ensures LastOf(SetAt(cs, i, status, message), k) == LastOf(cs, k)
  {
    LastOfUnique(SetAt(cs, i, status, message), k, LastOf(cs, k));
  }

  /** Appending the first condition of a kind, or changing one in place, makes no duplicate. */
  lemma AppendUnique(cs: seq<ConditionValue>, c: ConditionValue)
    requires LastOf(cs, c.kind) < 0
    ensures Unique(cs) ==> Unique(cs + [c])
  {
  }

  lemma SetUnique(cs: seq<ConditionValue>, i: nat, status: ConditionStatus, message: Option<string>)
    requires i < |cs|
    ensures Unique(cs) ==> Unique(SetAt(cs, i, status, message))
  {
  }

  lemma SetExtends(cs: seq<ConditionValue>, i: nat, status: ConditionStatus, message: Option<string>)
    requires i < |cs| && Managed(cs[i].kind)
    ensures Extends(cs, SetAt(cs, i, status, message))
  {
    SetLast(cs, i, status, message, Terminal);
    SetLast(cs, i, status, message, Recoverable);
    SetLast(cs, i, status, message, ResourceSynced);
    SetUnique(cs, i, status, message);
  }

  lemma AppendLast(cs: seq<ConditionValue>, c: ConditionValue, k: ConditionKind)
    ensures LastOf(cs + [c], k) == if c.kind == k then |cs| else LastOf(cs, k)
  {
  }

  lemma AppendExtends(cs: seq<ConditionValue>, c: ConditionValue)
    requires Managed(c.kind) && LastOf(cs, c.kind) < 0
    ensures Extends(cs, cs + [c])
  {
    AppendLast(cs, c, Terminal);
    AppendLast(cs, c, Recoverable);
    AppendLast(cs, c, ResourceSynced);
    AppendUnique(cs, c);
  }

  lemma PutLast(cs: seq<ConditionValue>, kind: ConditionKind, status: ConditionStatus, message: Option<string>, k: ConditionKind)
    ensures LastOf(Put(cs, kind, status, message), k) == if k == kind && LastOf(cs, k) < 0 then |cs| else LastOf(cs, k)
  {
    if LastOf(cs, kind) < 0 {
      AppendLast(cs, ConditionValue(kind, status, message, None), k);
    } else {
      SetLast(cs, LastOf(cs, kind), status, message, k);
    }
  }

  lemma PutExtends(cs: seq<ConditionValue>, kind: ConditionKind, status: ConditionStatus, message: Option<string>)
    requires Managed(kind)
    ensures Extends(cs, Put(cs, kind, status, message))
    ensures forall k :: LastOf(Put(cs, kind, status, message), k) ==
                        if k == kind && LastOf(cs, k) < 0 then |cs| else LastOf(cs, k)
  {
    forall k
      ensures LastOf(Put(cs, kind, status, message), k) == if k == kind && LastOf(cs, k) < 0 then |cs| else LastOf(cs, k)
    {
      PutLast(cs, kind, status, message, k);
    }
    if LastOf(cs, kind) < 0 {
      AppendExtends(cs, ConditionValue(kind, status, message, None));
    } else {
      SetExtends(cs, LastOf(cs, kind), status, message);
    }
  }

  lemma ClearExtends(cs: seq<ConditionValue>, kind: ConditionKind)
    requires Managed(kind)
    ensures Extends(cs, Clear(cs, kind))
    ensures forall k :: LastOf(Clear(cs, kind), k) == LastOf(cs, k)
  {
    forall k
      ensures LastOf(Clear(cs, kind), k) == LastOf(cs, k)
    {
      ClearKeepsKinds(cs, kind, k);
    }
  }

  lemma ExtendsTransitive(a: seq<ConditionValue>, b: seq<ConditionValue>, c: seq<ConditionValue>)
    requires Extends(a, b) && Extends(b, c)
    ensures Extends(a, c)
  {
  }

  lemma MarkedExtends(cs: seq<ConditionValue>, error: Option<Error>)
    ensures Extends(cs, Marked(cs, error))
    ensures LastOf(Marked(cs, error), ResourceSynced) == LastOf(cs, ResourceSynced)
  {
    if IsTerminal(error) {
      PutExtends(cs, Terminal, True, Some(TerminalMessage(error.value)));
    } else {
      var cleared := Clear(cs, Terminal);
      ClearExtends(cs, Terminal);
      if error.Some? {
        PutExtends(cleared, Recoverable, True, Some(RecoverableMessage(error.value)));
      } else {
        ClearExtends(cleared, Recoverable);
      }
      ExtendsTransitive(cs, cleared, Marked(cs, error));
    }
  }

  lemma UpdatedExtends(cs: seq<ConditionValue>, onSuccess: bool, error: Option<Error>)
    ensures Extends(cs, Updated(cs, onSuccess, error))
  {
    var marked := Marked(cs, error);
    MarkedExtends(cs, error);
    if onSuccess && LastOf(cs, ResourceSynced) < 0 {
      PutExtends(marked, ResourceSynced, True, None);
      ExtendsTransitive(cs, marked, Updated(cs, onSuccess, error));
    }
  }

  /* ----- runs ----- */

  datatype Update = Update(onSuccess: bool, error: Option<Error>)

  function Run(cs: seq<ConditionValue>, calls: seq<Update>): seq<ConditionValue> {
    if calls == [] then cs
    else Updated(Run(cs, calls[..|calls| - 1]), calls[|calls| - 1].onSuccess, calls[|calls| - 1].error)
  }

  /** Any number of calls: nothing dropped or moved, foreign conditions untouched, at most three
      entries more, and at most one entry of each managed kind if it was so before. */
  lemma {:induction false} RunExtends(cs: seq<ConditionValue>, calls: seq<Update>)
    ensures Extends(cs, Run(cs, calls)) && |Run(cs, calls)| <= |cs| + 3
  {
    if calls != [] {
      var n := |calls| - 1;
      RunExtends(cs, calls[..n]);
      UpdatedExtends(Run(cs, calls[..n]), calls[n].onSuccess, calls[n].error);
      ExtendsTransitive(cs, Run(cs, calls[..n]), Run(cs, calls));
    }
  }

  /** Repeating a call with the same arguments changes nothing. */
  lemma Idempotent(cs: seq<ConditionValue>, onSuccess: bool, error: Option<Error>)
    ensures Updated(Updated(cs, onSuccess, error), onSuccess, error) == Updated(cs, onSuccess, error)
  {
    var once := Updated(cs, onSuccess, error);
    var marked := Marked(cs, error);
    MarkedExtends(cs, error);
    MarkedTwice(cs, error);
    if onSuccess && LastOf(cs, ResourceSynced) < 0 {
      MarkedAppend(marked, ConditionValue(ResourceSynced, True, None, None), error);
      LastOfUnique(once, ResourceSynced, |marked|);
      MarkedExtends(once, error);
    }
  }

  lemma PutTwice(cs: seq<ConditionValue>, kind: ConditionKind, status: ConditionStatus, message: Option<string>)
    requires Managed(kind)
    ensures Put(Put(cs, kind, status, message), kind, status, message) == Put(cs, kind, status, message)
  {
  }

  /** The Terminal condition, if any, is already cleared. */
  predicate Cleared(cs: seq<ConditionValue>, kind: ConditionKind) {
    var i := LastOf(cs, kind);
    i >= 0 ==> cs[i].status == False && cs[i].message == None
  }

  lemma MarkedTwice(cs: seq<ConditionValue>, error: Option<Error>)
    ensures Marked(Marked(cs, error), error) == Marked(cs, error)
  {
    if IsTerminal(error) {
      PutTwice(cs, Terminal, True, Some(TerminalMessage(error.value)));
    } else {
      var cleared := Clear(cs, Terminal);
      ClearExtends(cs, Terminal);
      if error.Some? {
        var message := Some(RecoverableMessage(error.value));
        PutExtends(cleared, Recoverable, True, message);
        AlreadyCleared(Put(cleared, Recoverable, True, message), Terminal);
        PutTwice(cleared, Recoverable, True, message);
      } else {
        ClearExtends(cleared, Recoverable);
        AlreadyCleared(Clear(cleared, Recoverable), Terminal);
        AlreadyCleared(Clear(cleared, Recoverable), Recoverable);
      }
    }
  }

  lemma AlreadyCleared(cs: seq<ConditionValue>, kind: ConditionKind)
    requires Cleared(cs, kind)
    ensures Clear(cs, kind) == cs
  {
  }

  /** Marking does not look at an entry of another kind at the end, once both conditions are there or not needed. */
  lemma MarkedAppend(cs: seq<ConditionValue>, extra: ConditionValue, error: Option<Error>)
    requires extra.kind == ResourceSynced
    requires Marked(cs, error) == cs
    ensures Marked(cs + [extra], error) == cs + [extra]
  {
    var longer := cs + [extra];
    LastOfUnique(longer, Terminal, LastOf(cs, Terminal));
    LastOfUnique(longer, Recoverable, LastOf(cs, Recoverable));
    MarkedFixed(cs, error);
    if IsTerminal(error) {
      assert Put(longer, Terminal, True, Some(TerminalMessage(error.value))) == longer;
    } else {
      assert Clear(longer, Terminal) == longer;
      if error.Some? {
        assert Put(longer, Recoverable, True, Some(RecoverableMessage(error.value))) == longer;
      } else {
        assert Clear(longer, Recoverable) == longer;
      }
    }
  }

  /** What it means for marking to change nothing. */
  lemma MarkedFixed(cs: seq<ConditionValue>, error: Option<Error>)
    requires Marked(cs, error) == cs
    ensures var t, r := LastOf(cs, Terminal), LastOf(cs, Recoverable);
            if IsTerminal(error) then t >= 0 && cs[t].status == True && cs[t].message == Some(TerminalMessage(error.value))
            else
              && Cleared(cs, Terminal)
              && (if error.Some? then r >= 0 && cs[r].status == True && cs[r].message == Some(RecoverableMessage(error.value))
                  else Cleared(cs, Recoverable))
  {
  }

  /* ----- what the conditions say about the error ----- */

  /** A True condition of the kind that is not the last of its kind: the loop never points at it. */
  ghost predicate Stale(cs: seq<ConditionValue>, kind: ConditionKind) {
    TrueBefore(cs, kind, LastOf(cs, kind))
  }

  ghost predicate TrueBefore(cs: seq<ConditionValue>, kind: ConditionKind, n: int)
    requires n <= |cs|
  {
    exists i :: 0 <= i < n && cs[i].kind == kind && cs[i].status == True
  }

  lemma UniqueIsNeverStale(cs: seq<ConditionValue>, kind: ConditionKind)
    requires AtMostOne(cs, kind)
    ensures !Stale(cs, kind)
  {
  }

  /** Changing entry `i` does not change what is True before `n`, if `i` is of another kind or not before `n`. */
  lemma SetTrueBefore(cs: seq<ConditionValue>, i: nat, status: ConditionStatus, message: Option<string>, k: ConditionKind, n: int)
    requires i < |cs| && n <= |cs|
    requires cs[i].kind != k || n <= i
    ensures TrueBefore(SetAt(cs, i, status, message), k, n) <==> TrueBefore(cs, k, n)
  {
    if TrueBefore(cs, k, n) {
      var j :| 0 <= j < n && cs[j].kind == k && cs[j].status == True;
      assert SetAt(cs, i, status, message)[j] == cs[j];
    }
  }

  lemma SetTrue(cs: seq<ConditionValue>, i: nat, status: ConditionStatus, message: Option<string>, k: ConditionKind)
    requires i < |cs| && LastOf(cs, cs[i].kind) == i
    ensures HasTrue(SetAt(cs, i, status, message), k) <==> if k == cs[i].kind then status == True || Stale(cs, k) else HasTrue(cs, k)
    ensures Stale(SetAt(cs, i, status, message), k) <==> Stale(cs, k)
  {
    var after := SetAt(cs, i, status, message);
    SetLast(cs, i, status, message, k);
    SetTrueBefore(cs, i, status, message, k, LastOf(cs, k));
    if k == cs[i].kind {
      LastDecides(after, k);
    } else {
      SetTrueBefore(cs, i, status, message, k, |cs|);
      WholeList(cs, k);
      WholeList(after, k);
    }
  }

  lemma WholeList(cs: seq<ConditionValue>, k: ConditionKind)
    ensures HasTrue(cs, k) <==> TrueBefore(cs, k, |cs|)
  {
  }

  lemma LastDecides(cs: seq<ConditionValue>, k: ConditionKind)
    requires LastOf(cs, k) >= 0
    ensures HasTrue(cs, k) <==> cs[LastOf(cs, k)].status == True || Stale(cs, k)
  {
  }

  lemma PutTrue(cs: seq<ConditionValue>, kind: ConditionKind, status: ConditionStatus, message: Option<string>, k: ConditionKind)
    ensures HasTrue(Put(cs, kind, status, message), k) <==> if k == kind then status == True || Stale(cs, k) else HasTrue(cs, k)
    ensures Stale(Put(cs, kind, status, message), k) <==> Stale(cs, k)
  {
    if LastOf(cs, kind) < 0 {
      FirstTrue(cs, ConditionValue(kind, status, message, None), k);
    } else {
      SetTrue(cs, LastOf(cs, kind), status, message, k);
    }
  }

  /** The first condition of a kind, at the end. */
  lemma FirstTrue(cs: seq<ConditionValue>, c: ConditionValue, k: ConditionKind)
    requires LastOf(cs, c.kind) < 0
    ensures HasTrue(cs + [c], k) <==> if k == c.kind then c.status == True else HasTrue(cs, k)
    ensures Stale(cs + [c], k) <==> Stale(cs, k)
  {
    var longer := cs + [c];
    AppendLast(cs, c, k);
    assert forall i :: 0 <= i < |cs| ==> longer[i] == cs[i];
    if k == c.kind {
      assert longer[|cs|] == c;
    } else {
      AppendTrue(cs, c, k);
    }
  }

  lemma ClearTrue(cs: seq<ConditionValue>, kind: ConditionKind, k: ConditionKind)
    ensures HasTrue(Clear(cs, kind), k) <==> if k == kind then Stale(cs, k) else HasTrue(cs, k)
    ensures Stale(Clear(cs, kind), k) <==> Stale(cs, k)
  {
    if LastOf(cs, kind) >= 0 {
      PutTrue(cs, kind, False, None, k);
    } else if k == kind {
      assert !HasTrue(cs, k);
    }
  }

  /** For every condition list: what is True after a call, exactly. */
  lemma Classification(cs: seq<ConditionValue>, onSuccess: bool, error: Option<Error>)
    ensures var after := Updated(cs, onSuccess, error);
            && (HasTrue(after, Terminal) <==> IsTerminal(error) || Stale(cs, Terminal))
            && (HasTrue(after, Recoverable) <==>
                if IsTerminal(error) then HasTrue(cs, Recoverable) else error.Some? || Stale(cs, Recoverable))
  {
    var marked := Marked(cs, error);
    if IsTerminal(error) {
      PutTrue(cs, Terminal, True, Some(TerminalMessage(error.value)), Terminal);
      PutTrue(cs, Terminal, True, Some(TerminalMessage(error.value)), Recoverable);
    } else {
      var cleared := Clear(cs, Terminal);
      ClearTrue(cs, Terminal, Terminal);
      ClearTrue(cs, Terminal, Recoverable);
      if error.Some? {
        PutTrue(cleared, Recoverable, True, Some(RecoverableMessage(error.value)), Terminal);
        PutTrue(cleared, Recoverable, True, Some(RecoverableMessage(error.value)), Recoverable);
      } else {
        ClearTrue(cleared, Recoverable, Terminal);
        ClearTrue(cleared, Recoverable, Recoverable);
      }
    }
    var synced := ConditionValue(ResourceSynced, True, None, None);
    AppendTrue(marked, synced, Terminal);
    AppendTrue(marked, synced, Recoverable);
  }

  lemma AppendTrue(cs: seq<ConditionValue>, extra: ConditionValue, k: ConditionKind)
    requires extra.kind != k
    ensures HasTrue(cs + [extra], k) <==> HasTrue(cs, k)
  {
    var longer := cs + [extra];
    if HasTrue(cs, k) {
      var i :| 0 <= i < |cs| && cs[i].kind == k && cs[i].status == True;
      assert longer[i] == cs[i];
    }
  }

  /** Terminal and Recoverable are both True after a call exactly when a terminal error met a
      Recoverable that was True: that branch leaves it alone. */
  lemma BothTrueExactly(cs: seq<ConditionValue>, onSuccess: bool, error: Option<Error>)
    requires Unique(cs)
    ensures var after := Updated(cs, onSuccess, error);
            HasTrue(after, Terminal) && HasTrue(after, Recoverable) <==> IsTerminal(error) && HasTrue(cs, Recoverable)
  {
    Classification(cs, onSuccess, error);
    UniqueIsNeverStale(cs, Terminal);
  }

  /** Whether the last call of a run that was not terminal had an error; `before` if there is none. */
  function LastRecoverable(before: bool, calls: seq<Update>): bool {
    if calls == [] then before
    else if IsTerminal(calls[|calls| - 1].error) then LastRecoverable(before, calls[..|calls| - 1])
    else calls[|calls| - 1].error.Some?
  }

  /** After a run, Terminal is True exactly when its last call was terminal, so nothing leaks from an
      earlier call; Recoverable tells of the last call that was not terminal. */
  lemma {:induction false} RunClassification(cs: seq<ConditionValue>, calls: seq<Update>)
    requires Unique(cs)
    ensures calls != [] ==> (HasTrue(Run(cs, calls), Terminal) <==> IsTerminal(calls[|calls| - 1].error))
    ensures HasTrue(Run(cs, calls), Recoverable) <==> LastRecoverable(HasTrue(cs, Recoverable), calls)
  {
    if calls != [] {
      var n := |calls| - 1;
      RunClassification(cs, calls[..n]);
      RunExtends(cs, calls[..n]);
      var before := Run(cs, calls[..n]);
      Classification(before, calls[n].onSuccess, calls[n].error);
      UniqueIsNeverStale(before, Terminal);
      UniqueIsNeverStale(before, Recoverable);
    }
  }

  /** So it happens: from any list, an error that is not terminal followed by one that is. */
  lemma BothTrueHappens(cs: seq<ConditionValue>, first: Update, second: Update)
    requires Unique(cs) && first.error.Some? && !IsTerminal(first.error) && IsTerminal(second.error)
    ensures HasTrue(Run(cs, [first, second]), Terminal) && HasTrue(Run(cs, [first, second]), Recoverable)
  {
    var calls := [first, second];
    assert calls[..1] == [first];
    RunClassification(cs, calls);
    assert LastRecoverable(HasTrue(cs, Recoverable), [first]);
  }

  /** `onError` answers with the terminal error for terminal errors, and with the error itself for all
      others, unless a stale Terminal hides in the list. */
  lemma OnErrorReplaces(c: CertificateValue, rm: Identity, error: Error)
    ensures ErrorAnswer(c, rm, error) == if IsTerminal(Some(error)) || Stale(c.conditions, Terminal) then ResourceTerminal else error
    ensures Unique(c.conditions) ==> !Stale(c.conditions, Terminal)
  {
    Classification(c.conditions, false, Some(error));
  }

  /* ----- every entry after a call, spelled out ----- */

  /** Entry `i` is the last one of a kind. */
  ghost predicate IsLast(cs: seq<ConditionValue>, i: nat, kind: ConditionKind) {
    i < |cs| && cs[i].kind == kind && forall j :: i < j < |cs| ==> cs[j].kind != kind
  }

  ghost predicate Lacks(cs: seq<ConditionValue>, kind: ConditionKind) {
    forall i :: 0 <= i < |cs| ==> cs[i].kind != kind
  }

  lemma LastIsLast(cs: seq<ConditionValue>, i: nat, kind: ConditionKind)
    ensures IsLast(cs, i, kind) <==> LastOf(cs, kind) == i
  {
    if IsLast(cs, i, kind) {
      LastOfUnique(cs, kind, i);
    }
  }

  lemma LacksNone(cs: seq<ConditionValue>, kind: ConditionKind)
    ensures Lacks(cs, kind) <==> LastOf(cs, kind) < 0
  {
    if Lacks(cs, kind) {
      LastOfUnique(cs, kind, -1);
    }
  }

  /** An entry there was before: the last Terminal and the last Recoverable are set or cleared, a
      terminal error leaving the Recoverable alone; everything else stays, ResourceSynced included. */
  lemma EntryAfter(cs: seq<ConditionValue>, onSuccess: bool, error: Option<Error>, i: nat)
    requires i < |cs|
    ensures i < |Updated(cs, onSuccess, error)|
    ensures Updated(cs, onSuccess, error)[i] ==
            if IsLast(cs, i, Terminal) then
              if IsTerminal(error) then cs[i].(status := True, message := Some(TerminalMessage(error.value)))
              else cs[i].(status := False, message := None)
            else if IsLast(cs, i, Recoverable) && !IsTerminal(error) then
              if error.Some? then cs[i].(status := True, message := Some(RecoverableMessage(error.value)))
              else cs[i].(status := False, message := None)
            else cs[i]
  {
    LastIsLast(cs, i, Terminal);
    LastIsLast(cs, i, Recoverable);
    ClearKeepsKinds(cs, Terminal, Recoverable);
  }

  /** The entries a call adds, in their order: a Terminal for a terminal error, a Recoverable for any
      other, and a ResourceSynced on success, each only if the list has none of its kind. */
  lemma EntriesAdded(cs: seq<ConditionValue>, onSuccess: bool, error: Option<Error>)
    ensures |cs| <= |Updated(cs, onSuccess, error)|
    ensures Updated(cs, onSuccess, error)[|cs|..] ==
            (if IsTerminal(error) && Lacks(cs, Terminal)
             then [ConditionValue(Terminal, True, Some(TerminalMessage(error.value)), None)]
             else if error.Some? && !IsTerminal(error) && Lacks(cs, Recoverable)
             then [ConditionValue(Recoverable, True, Some(RecoverableMessage(error.value)), None)]
             else [])
            + (if onSuccess && Lacks(cs, ResourceSynced) then [ConditionValue(ResourceSynced, True, None, None)] else [])
  {
    LacksNone(cs, Terminal);
    LacksNone(cs, Recoverable);
    LacksNone(cs, ResourceSynced);
    ClearKeepsKinds(cs, Terminal, Recoverable);
    MarkedAdds(cs, error);
  }

  lemma MarkedAdds(cs: seq<ConditionValue>, error: Option<Error>)
    ensures |cs| <= |Marked(cs, error)|
    ensures Marked(cs, error)[|cs|..] ==
            if IsTerminal(error) && LastOf(cs, Terminal) < 0
            then [ConditionValue(Terminal, True, Some(TerminalMessage(error.value)), None)]
            else if error.Some? && !IsTerminal(error) && LastOf(cs, Recoverable) < 0
            then [ConditionValue(Recoverable, True, Some(RecoverableMessage(error.value)), None)]
            else []
  {
    ClearKeepsKinds(cs, Terminal, Recoverable);
  }

  /** `updateConditions` hands back a resource exactly when it has one of the three conditions in the end. */
  lemma ReportsExactly(cs: seq<ConditionValue>, onSuccess: bool, error: Option<Error>)
    ensures Reports(cs, onSuccess, error) <==>
            var after := Updated(cs, onSuccess, error);
            !(Lacks(after, Terminal) && Lacks(after, Recoverable) && Lacks(after, ResourceSynced))
  {
    var after := Updated(cs, onSuccess, error);
    UpdatedExtends(cs, onSuccess, error);
    EntriesAdded(cs, onSuccess, error);
    LacksNone(cs, Terminal);
    LacksNone(cs, Recoverable);
    LacksNone(cs, ResourceSynced);
    assert forall i :: |cs| <= i < |after| ==> after[i] == after[|cs|..][i - |cs|];
    if Reports(cs, onSuccess, error) {
      if !Lacks(cs, Terminal) || !Lacks(cs, Recoverable) || !Lacks(cs, ResourceSynced) {
        var i :| 0 <= i < |cs| && Managed(cs[i].kind);
        assert after[i].kind == cs[i].kind;
      } else {
        assert after[|cs|..] != [];
        assert Managed(after[|cs|].kind);
      }
    } else {
      assert after[|cs|..] == [];
      assert forall i :: 0 <= i < |after| ==> after[i].kind == cs[i].kind;
    }
  }

  /* ----- success marks the resource synced ----- */

  /** A ResourceSynced condition is there afterwards exactly if it was before or the call was a success;
      a new one is True. */
  lemma SyncedExactly(cs: seq<ConditionValue>, onSuccess: bool, error: Option<Error>)
    ensures var after := Updated(cs, onSuccess, error);
            && (Lacks(after, ResourceSynced) <==> Lacks(cs, ResourceSynced) && !onSuccess)
            && (HasTrue(after, ResourceSynced) <==> HasTrue(cs, ResourceSynced) || (onSuccess && Lacks(cs, ResourceSynced)))
  {
    var after := Updated(cs, onSuccess, error);
    forall i | 0 <= i < |cs|
      ensures i < |after| && after[i].kind == cs[i].kind
      ensures cs[i].kind == ResourceSynced ==> after[i] == cs[i]
    {
      EntryAfter(cs, onSuccess, error, i);
    }
    EntriesAdded(cs, onSuccess, error);
    SyncedIn(cs, after);
    AddedSynced(after[|cs|..], onSuccess && Lacks(cs, ResourceSynced));
  }

  /** Whether the entries added end in a ResourceSynced. */
  lemma AddedSynced(added: seq<ConditionValue>, synced: bool)
    requires |added| <= 2
    requires synced ==> added != [] && added[|added| - 1] == ConditionValue(ResourceSynced, True, None, None)
    requires forall i :: 0 <= i < |added| && (synced ==> i < |added| - 1) ==> added[i].kind != ResourceSynced
    ensures HasTrue(added, ResourceSynced) <==> synced
    ensures Lacks(added, ResourceSynced) <==> !synced
  {
    if synced {
      assert added[|added| - 1].kind == ResourceSynced && added[|added| - 1].status == True;
    }
  }

  lemma SyncedIn(cs: seq<ConditionValue>, after: seq<ConditionValue>)
    requires |cs| <= |after|
    requires forall i :: 0 <= i < |cs| ==> after[i].kind == cs[i].kind && (cs[i].kind == ResourceSynced ==> after[i] == cs[i])
    ensures Lacks(after, ResourceSynced) <==> Lacks(cs, ResourceSynced) && Lacks(after[|cs|..], ResourceSynced)
    ensures HasTrue(after, ResourceSynced) <==> HasTrue(cs, ResourceSynced) || HasTrue(after[|cs|..], ResourceSynced)
  {
    var added := after[|cs|..];
    assert forall i :: 0 <= i < |added| ==> added[i] == after[|cs| + i];
    if HasTrue(cs, ResourceSynced) {
      var i :| 0 <= i < |cs| && cs[i].kind == ResourceSynced && cs[i].status == True;
      assert after[i].kind == ResourceSynced && after[i].status == True;
    }
    if HasTrue(added, ResourceSynced) {
      var i :| 0 <= i < |added| && added[i].kind == ResourceSynced && added[i].status == True;
      assert after[|cs| + i].kind == ResourceSynced && after[|cs| + i].status == True;
    }
    if HasTrue(after, ResourceSynced) {
      var i :| 0 <= i < |after| && after[i].kind == ResourceSynced && after[i].status == True;
      assert i >= |cs| ==> added[i - |cs|] == after[i];
    }
    if Lacks(cs, ResourceSynced) && Lacks(added, ResourceSynced) {
      assert forall i :: |cs| <= i < |after| ==> after[i] == added[i - |cs|];
    }
    if Lacks(after, ResourceSynced) {
      assert forall i :: 0 <= i < |cs| ==> cs[i].kind == after[i].kind;
    }
  }

  /** Over any run from a list without one: ResourceSynced is True exactly once a call has succeeded,
      whatever the others were. */
  lemma {:induction false} SyncedOverRuns(cs: seq<ConditionValue>, calls: seq<Update>)
    requires Lacks(cs, ResourceSynced)
    ensures HasTrue(Run(cs, calls), ResourceSynced) <==> exists i :: 0 <= i < |calls| && calls[i].onSuccess
    ensures Lacks(Run(cs, calls), ResourceSynced) <==> !HasTrue(Run(cs, calls), ResourceSynced)
  {
    if calls == [] {
    } else {
      var n := |calls| - 1;
      SyncedOverRuns(cs, calls[..n]);
      SyncedExactly(Run(cs, calls[..n]), calls[n].onSuccess, calls[n].error);
      assert forall i :: 0 <= i < n ==> calls[..n][i] == calls[i];
    }
  }

  /* ----- which errors are terminal, and what they say ----- */

  /** The error and the causes it wraps, in the order `errors.As` tries them. */
  function Chain(error: Error): (chain: seq<Error>)
    ensures |chain| > 0 && chain[0] == error
  {
    match error
    case TerminalError(cause) => [error] + Chain(cause)
    case Wrapped(_, cause) => [error] + Chain(cause)
    case _ => [error]
  }

  /** The first API error of a chain. */
  function FirstApi(chain: seq<Error>): Option<Error> {
    if chain == [] then None else if chain[0].Api? then Some(chain[0]) else FirstApi(chain[1..])
  }

  lemma {:induction false} ApiInChain(error: Error)
    ensures AsApiError(error) == FirstApi(Chain(error))
    ensures AsApiError(error).Some? ==> AsApiError(error).value.Api?
  {
    if error.TerminalError? || error.Wrapped? {
      ApiInChain(error.cause);
      assert Chain(error)[1..] == Chain(error.cause);
    } else {
      assert Chain(error)[1..] == [];
    }
  }

  lemma {:induction false} TerminalInChain(error: Error)
    ensures AsTerminalError(error) <==> exists e :: e in Chain(error) && e.TerminalError?
  {
    if error.Wrapped? {
      TerminalInChain(error.cause);
      assert forall e :: e in Chain(error) <==> e == error || e in Chain(error.cause);
    } else {
      assert error in Chain(error);
    }
  }

  /** An error is terminal exactly if it is one of the two Secret errors itself, wraps a terminal error,
      or the first API error it wraps has one of the six codes. */
  lemma TerminalExactly(error: Error)
    ensures IsTerminal(Some(error)) <==>
            || error == SecretTypeNotSupported || error == SecretNotFound
            || (exists e :: e in Chain(error) && e.TerminalError?)
            || (match FirstApi(Chain(error))
                case Some(Api(code, _)) =>
                  || code == "InvalidParameterException" || code == "InvalidDomainValidationOptionsException"
                  || code == "InvalidTagException" || code == "TagPolicyException"
                  || code == "TooManyTagsException" || code == "InvalidArnException"
                case _ => false)
    ensures !IsTerminal(None)
  {
    ApiInChain(error);
    TerminalInChain(error);
  }

  /** What the conditions say: the text of the whole error, except that a terminal API error, and any
      error that is not terminal but wraps an API error, is told by that API error's own text. */
  lemma MessagesExactly(error: Error)
    ensures IsTerminal(Some(error)) ==>
              TerminalMessage(error) ==
              if error == SecretTypeNotSupported || error == SecretNotFound || exists e :: e in Chain(error) && e.TerminalError?
              then Message(error)
              else Message(if FirstApi(Chain(error)).Some? then FirstApi(Chain(error)).value else error)
    ensures RecoverableMessage(error) == Message(if FirstApi(Chain(error)).Some? then FirstApi(Chain(error)).value else error)
  {
    ApiInChain(error);
    TerminalInChain(error);
  }
}
