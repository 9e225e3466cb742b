/** The batch-create payload as the handler normalises it, before it is hashed and sent on. */
module Batch {
  import opened Text
  import opened Values
  import opened Sorting
  import ActivityUsecase
  import RedisKeys
  import RedisTimeline

  const MIN_LOANS := 2
  const MAX_LOANS := 500

  datatype BatchError =
    | NoPayload
    | NoLoanIds
    | LoanIdsNotTexts
    | LoanIdsNotUnique
    | LoanIdsCount
    | NoActivity
    | ActivityNotObject
    | LoanIdInActivity
    | FieldsMissing(names: seq<string>)

  // ----- the loan ids -----

  function Coerce(raw: Value): Option<seq<string>> {
    if raw.Strings? then Some(raw.texts)
    else if raw.List? && forall i :: 0 <= i < |raw.items| ==> raw.items[i].Str? then
      Some(seq(|raw.items|, i requires 0 <= i < |raw.items| => raw.items[i].s))
    else None
  }

  /** A `[]string`, or a `[]any` of nothing but strings. */
  ghost predicate AreTexts(raw: Value, ids: seq<string>) {
    || raw == Strings(ids)
    || (raw.List? && |raw.items| == |ids| && forall i :: 0 <= i < |ids| ==> raw.items[i] == Str(ids[i]))
  }

  lemma CoerceExactly(raw: Value, ids: seq<string>)
    ensures Coerce(raw) == Some(ids) <==> AreTexts(raw, ids)
  {
    if AreTexts(raw, ids) && raw.List? {
      assert Coerce(raw).value == ids;
    }
  }

  method CoerceStringSlice(raw: Value) returns (ids: Option<seq<string>>)
    ensures ids == Coerce(raw)
  {
    if raw.Strings? {
      return Some(raw.texts);
    }
    if !raw.List? {
      return None;
    }
    var out: seq<string> := [];
    for i := 0 to |raw.items|
      invariant |out| == i && forall j :: 0 <= j < i ==> raw.items[j].Str? && out[j] == raw.items[j].s
    {
      if !raw.items[i].Str? {
        return None;
      }
      out := out + [raw.items[i].s];
    }
    assert out == Coerce(raw).value;
    return Some(out);
  }

  function Trim(ids: seq<string>): seq<string> {
    seq(|ids|, i requires 0 <= i < |ids| => TrimSpace(ids[i]))
  }

  predicate UniqueNonBlank(ids: seq<string>) {
    && (forall i :: 0 <= i < |ids| ==> ids[i] != "")
    && forall i, j :: 0 <= i < j < |ids| ==> ids[i] != ids[j]
  }

  /** Trims each id, and stops at the first that is blank or was seen before. */
  method TrimUnique(ids: seq<string>) returns (normalized: Option<seq<string>>)
    ensures normalized == if UniqueNonBlank(Trim(ids)) then Some(Trim(ids)) else None
  {
    var out, seen := [], {};
    for i := 0 to |ids|
      invariant |out| == i && out == Trim(ids)[..i] && UniqueNonBlank(out)
      invariant forall x :: x in seen <==> x in out
    {
      var trimmed := TrimSpace(ids[i]);
      assert Trim(ids)[i] == trimmed;
      if trimmed == "" {
        return None;
      }
      if trimmed in seen {
        var j :| 0 <= j < i && out[j] == trimmed;
        assert Trim(ids)[j] == trimmed;
        return None;
      }
      seen := seen + {trimmed};
      out := out + [trimmed];
    }
    assert out == Trim(ids);
    return Some(out);
  }

  // ----- the activity -----

  function TextField(fields: seq<Field>, key: string): string {
    var v := Lookup(fields, key);
    if v.Some? && v.value.Str? then v.value.s else ""
  }

  function Remove(fields: seq<Field>, key: string): seq<Field> {
    if |fields| == 0 then []
    else if fields[0].key == key then Remove(fields[1..], key)
    else [fields[0]] + Remove(fields[1..], key)
  }

  method CloneMap(fields: seq<Field>) returns (copy: seq<Field>)
    ensures copy == fields
  {
    copy := [];
    for i := 0 to |fields|
      invariant copy == fields[..i]
    {
      copy := copy + [fields[i]];
    }
  }

  function Missing(activity: seq<Field>): seq<string> {
    (if TrimSpace(TextField(activity, "result")) == "" then ["result"] else [])
    + (if TrimSpace(TextField(activity, "comment")) == "" then ["comment"] else [])
  }

  predicate NamesLoan(activity: seq<Field>) {
    var v := Lookup(activity, "loan_id");
    v.Some? && v.value != Nil
  }

  // ----- the payload -----

  function Normalised(ids: seq<string>, activity: seq<Field>): seq<Field> {
    [Field("loan_ids", Strings(Sort(Trim(ids)))), Field("activity", Object(Remove(activity, "loan_id")))]
  }

  function CheckIds(payload: seq<Field>): Result<seq<string>, BatchError> {
    var raw := Lookup(payload, "loan_ids");
    if raw == None then Err(NoLoanIds)
    else
      var ids := Coerce(raw.value);
      if ids == None then Err(LoanIdsNotTexts)
      else if !UniqueNonBlank(Trim(ids.value)) then Err(LoanIdsNotUnique)
      else if !(MIN_LOANS <= |ids.value| <= MAX_LOANS) then Err(LoanIdsCount)
      else Ok(ids.value)
  }

  function CheckActivity(payload: seq<Field>): Result<seq<Field>, BatchError> {
    var raw := Lookup(payload, "activity");
    if raw == None || raw.value == Nil then Err(NoActivity)
    else if !raw.value.Object? then Err(ActivityNotObject)
    else if NamesLoan(raw.value.fields) then Err(LoanIdInActivity)
    else if Missing(raw.value.fields) != [] then Err(FieldsMissing(Missing(raw.value.fields)))
    else Ok(raw.value.fields)
  }

  function Normalise(payload: Option<seq<Field>>): Result<seq<Field>, BatchError> {
    if payload == None then Err(NoPayload)
    else
      var ids := CheckIds(payload.value);
      if ids.Err? then Err(ids.error)
      else
        var activity := CheckActivity(payload.value);
        if activity.Err? then Err(activity.error) else Ok(Normalised(ids.value, activity.value))
  }

  method NormalizeActivityBatchPayload(payload: Option<seq<Field>>) returns (result: Result<seq<Field>, BatchError>)
    ensures result == Normalise(payload)
  {
    if payload == None {
      return Err(NoPayload);
    }
    var rawIds := Lookup(payload.value, "loan_ids");
    if rawIds == None {
      return Err(NoLoanIds);
    }
    var ids := CoerceStringSlice(rawIds.value);
    if ids == None {
      return Err(LoanIdsNotTexts);
    }
    var normalized := TrimUnique(ids.value);
    if normalized == None {
      return Err(LoanIdsNotUnique);
    }
    if |normalized.value| < MIN_LOANS || |normalized.value| > MAX_LOANS {
      return Err(LoanIdsCount);
    }
    var sorted := Sort(normalized.value);
    var raw := Lookup(payload.value, "activity");
    if raw == None || raw.value == Nil {
      return Err(NoActivity);
    }
    if !raw.value.Object? {
      return Err(ActivityNotObject);
    }
    var activity := raw.value.fields;
    if NamesLoan(activity) {
      return Err(LoanIdInActivity);
    }
    var missing: seq<string> := [];
    if TrimSpace(TextField(activity, "result")) == "" {
      missing := missing + ["result"];
    }
    if TrimSpace(TextField(activity, "comment")) == "" {
      missing := missing + ["comment"];
    }
    assert missing == Missing(activity);
    if |missing| > 0 {
      return Err(FieldsMissing(missing));
    }
    var copy := CloneMap(activity);
    return Ok([Field("loan_ids", Strings(sorted)), Field("activity", Object(Remove(copy, "loan_id")))]);
  }

  // ----- which error it is -----

  ghost predicate IdsAre(payload: Option<seq<Field>>, ids: seq<string>) {
    payload.Some? && var raw := Lookup(payload.value, "loan_ids"); raw.Some? && AreTexts(raw.value, ids)
  }

  predicate ActivityIs(payload: Option<seq<Field>>, fields: seq<Field>) {
    payload.Some? && Lookup(payload.value, "activity") == Some(Object(fields))
  }

  /** The field is no text, or blank. */
  predicate Lacks(fields: seq<Field>, key: string) {
    var v := Lookup(fields, key); v.Some? && v.value.Str? ==> Blank(v.value.s)
  }

  predicate LacksExactly(fields: seq<Field>, names: seq<string>) {
    if Lacks(fields, "result") && Lacks(fields, "comment") then names == ["result", "comment"]
    else if Lacks(fields, "result") then names == ["result"]
    else Lacks(fields, "comment") && names == ["comment"]
  }

  /** What is wrong with a payload, each by itself. */
  ghost predicate Wrong(payload: Option<seq<Field>>, e: BatchError) {
    match e
    case NoPayload => payload == None
    case NoLoanIds => payload.Some? && Lookup(payload.value, "loan_ids") == None
    case LoanIdsNotTexts =>
      payload.Some? && Lookup(payload.value, "loan_ids").Some? && forall ids :: !IdsAre(payload, ids)
    case LoanIdsNotUnique => exists ids :: IdsAre(payload, ids) && !UniqueNonBlank(Trim(ids))
    case LoanIdsCount => exists ids :: IdsAre(payload, ids) && !(2 <= |ids| <= 500)
    case NoActivity => payload.Some? && Lookup(payload.value, "activity") in [None, Some(Nil)]
    case ActivityNotObject =>
      && payload.Some? && Lookup(payload.value, "activity") !in [None, Some(Nil)]
      && forall fields :: !ActivityIs(payload, fields)
    case LoanIdInActivity =>
      exists fields :: ActivityIs(payload, fields) && Lookup(fields, "loan_id") !in [None, Some(Nil)]
    case FieldsMissing(names) => exists fields :: ActivityIs(payload, fields) && LacksExactly(fields, names)
  }

  /** The order in which it is looked for. */
  function Rank(e: BatchError): nat {
    match e
    case NoPayload => 0
    case NoLoanIds => 1
    case LoanIdsNotTexts => 2
    case LoanIdsNotUnique => 3
    case LoanIdsCount => 4
    case NoActivity => 5
    case ActivityNotObject => 6
    case LoanIdInActivity => 7
    case FieldsMissing(_) => 8
  }

  ghost predicate FirstWrong(payload: Option<seq<Field>>, e: BatchError) {
    Wrong(payload, e) && forall d :: Rank(d) < Rank(e) ==> !Wrong(payload, d)
  }

  lemma IdsWrong(payload: Option<seq<Field>>)
    requires payload.Some?
    ensures CheckIds(payload.value).Err? ==> FirstWrong(payload, CheckIds(payload.value).error)
    ensures CheckIds(payload.value).Ok? ==> forall d :: Rank(d) < 5 ==> !Wrong(payload, d)
  {
    var raw := Lookup(payload.value, "loan_ids");
    if raw.Some? {
      forall ids ensures IdsAre(payload, ids) <==> Coerce(raw.value) == Some(ids) {
        CoerceExactly(raw.value, ids);
      }
      if Coerce(raw.value).Some? {
        assert IdsAre(payload, Coerce(raw.value).value);
      }
    }
  }

  lemma MissingExactly(fields: seq<Field>)
    ensures Missing(fields) == [] <==> !Lacks(fields, "result") && !Lacks(fields, "comment")
    ensures Missing(fields) != [] ==> LacksExactly(fields, Missing(fields))
    ensures forall names :: LacksExactly(fields, names) ==> Missing(fields) != []
  {
    LacksIsBlank(fields, "result");
    LacksIsBlank(fields, "comment");
  }

  lemma LacksIsBlank(fields: seq<Field>, key: string)
    ensures Lacks(fields, key) <==> TrimSpace(TextField(fields, key)) == ""
  {
    BlankIsEmpty(TextField(fields, key));
  }

  lemma ActivityWrong(payload: Option<seq<Field>>)
    requires payload.Some? && forall d :: Rank(d) < 5 ==> !Wrong(payload, d)
    ensures CheckActivity(payload.value).Err? ==> FirstWrong(payload, CheckActivity(payload.value).error)
    ensures CheckActivity(payload.value).Ok? ==> forall e :: !Wrong(payload, e)
  {
    var raw := Lookup(payload.value, "activity");
    if raw.Some? && raw.value.Object? {
      ObjectWrong(payload, raw.value.fields);
    } else {
      NoObjectWrong(payload);
    }
  }

  lemma OnlyActivity(payload: Option<seq<Field>>, fields: seq<Field>)
    requires ActivityIs(payload, fields)
    ensures forall other :: ActivityIs(payload, other) <==> other == fields
  {
  }

  lemma WrongObject(payload: Option<seq<Field>>, fields: seq<Field>)
    requires ActivityIs(payload, fields)
    ensures !Wrong(payload, NoActivity) && !Wrong(payload, ActivityNotObject)
    ensures Wrong(payload, LoanIdInActivity) <==> NamesLoan(fields)
    ensures forall names :: Wrong(payload, FieldsMissing(names)) <==> LacksExactly(fields, names)
  {
    OnlyActivity(payload, fields);
    forall names ensures Wrong(payload, FieldsMissing(names)) <==> LacksExactly(fields, names) {
      if LacksExactly(fields, names) {
        assert ActivityIs(payload, fields) && LacksExactly(fields, names);
      }
    }
    if NamesLoan(fields) {
      assert ActivityIs(payload, fields) && Lookup(fields, "loan_id") !in [None, Some(Nil)];
    }
  }

  lemma ObjectWrong(payload: Option<seq<Field>>, fields: seq<Field>)
    requires ActivityIs(payload, fields) && forall d :: Rank(d) < 5 ==> !Wrong(payload, d)
    ensures CheckActivity(payload.value).Err? ==> FirstWrong(payload, CheckActivity(payload.value).error)
    ensures CheckActivity(payload.value).Ok? ==> forall e :: !Wrong(payload, e)
  {
    WrongObject(payload, fields);
    MissingExactly(fields);
    ByRank(payload);
    if !NamesLoan(fields) {
      forall d | Rank(d) < 8 ensures !Wrong(payload, d) {
        if Rank(d) >= 5 {
          assert d == NoActivity || d == ActivityNotObject || d == LoanIdInActivity;
        }
      }
      if CheckActivity(payload.value).Ok? {
        forall e ensures !Wrong(payload, e) {
          if Rank(e) == 8 {
            assert e == FieldsMissing(e.names);
          }
        }
      }
    }
  }

  lemma NoObjectWrong(payload: Option<seq<Field>>)
    requires payload.Some? && (forall fields :: !ActivityIs(payload, fields))
    requires Lookup(payload.value, "activity").Some? ==> !Lookup(payload.value, "activity").value.Object?
    requires forall d :: Rank(d) < 5 ==> !Wrong(payload, d)
    ensures CheckActivity(payload.value).Err? && FirstWrong(payload, CheckActivity(payload.value).error)
  {
    ByRank(payload);
  }

  /** The errors that have to do with the activity. */
  lemma ByRank(payload: Option<seq<Field>>)
    ensures forall d :: 5 <= Rank(d) < 8 ==> d == NoActivity || d == ActivityNotObject || d == LoanIdInActivity
    ensures forall d :: Rank(d) == 8 ==> d.FieldsMissing?
  {
  }

  /** The error is the first thing that is wrong, and there is one exactly when something is. */
  lemma ErrorIsFirstWrong(payload: Option<seq<Field>>)
    ensures Normalise(payload).Err? ==> FirstWrong(payload, Normalise(payload).error)
    ensures Normalise(payload).Ok? <==> forall e :: !Wrong(payload, e)
  {
    if payload.Some? {
      IdsWrong(payload);
      if CheckIds(payload.value).Ok? {
        ActivityWrong(payload);
      }
    } else {
      assert Wrong(payload, NoPayload);
    }
  }

  // ----- what a normalised payload holds -----

  lemma {:induction false} RemoveKeepsOthers(fields: seq<Field>, key: string, other: string)
    ensures Lookup(Remove(fields, key), other) == if other == key then None else Lookup(fields, other)
  {
    if |fields| > 0 {
      RemoveKeepsOthers(fields[1..], key, other);
    }
  }

  lemma {:induction false} NothingToRemove(fields: seq<Field>, key: string)
    ensures Remove(Remove(fields, key), key) == Remove(fields, key)
  {
    if |fields| > 0 {
      NothingToRemove(fields[1..], key);
    }
  }

  lemma UniqueBag(ids: seq<string>)
    ensures UniqueNonBlank(ids) <==> "" !in multiset(ids) && forall x :: x in multiset(ids) ==> multiset(ids)[x] == 1
  {
    assert "" in multiset(ids) <==> "" in ids;
    if forall i, j :: 0 <= i < j < |ids| ==> ids[i] != ids[j] {
      UniqueCounts(ids);
    } else {
      var i, j :| 0 <= i < j < |ids| && ids[i] == ids[j];
      TwiceCounts(ids, i, j);
      assert ids[i] in multiset(ids);
    }
  }

  lemma {:induction false} UniqueCounts(ids: seq<string>)
    requires forall i, j :: 0 <= i < j < |ids| ==> ids[i] != ids[j]
    ensures forall x :: x in multiset(ids) ==> multiset(ids)[x] == 1
  {
    if |ids| > 0 {
      UniqueCounts(ids[1..]);
      TailBag(ids);
      assert ids[0] !in ids[1..];
      assert ids[0] !in multiset(ids[1..]);
    }
  }

  lemma TwiceCounts(ids: seq<string>, i: nat, j: nat)
    requires i < j < |ids| && ids[i] == ids[j]
    ensures multiset(ids)[ids[i]] >= 2
  {
    assert ids == ids[..j] + ids[j..];
    assert ids[..j][i] == ids[i] && ids[j..][0] == ids[j];
    assert ids[i] in multiset(ids[..j]) && ids[j] in multiset(ids[j..]);
    assert multiset(ids) == multiset(ids[..j]) + multiset(ids[j..]);
  }

  lemma SortedUniqueIsStrict(ids: seq<string>)
    requires UniqueNonBlank(ids)
    ensures StrictlySorted(Sort(ids)) && multiset(Sort(ids)) == multiset(ids) && UniqueNonBlank(Sort(ids))
  {
    SortSorts(ids);
    UniqueBag(ids);
    UniqueBag(Sort(ids));
  }

  /** Two to 500 texts that stay distinct and non-blank when trimmed, and an activity object with a result
      and a comment that names no loan. */
  predicate Acceptable(payload: seq<Field>) {
    var ids, activity := Lookup(payload, "loan_ids"), Lookup(payload, "activity");
    && ids.Some? && Coerce(ids.value).Some? && UniqueNonBlank(Trim(Coerce(ids.value).value))
    && MIN_LOANS <= |Coerce(ids.value).value| <= MAX_LOANS
    && activity.Some? && activity.value.Object?
    && (Lookup(activity.value.fields, "loan_id") == None || Lookup(activity.value.fields, "loan_id") == Some(Nil))
    && TrimSpace(TextField(activity.value.fields, "result")) != ""
    && TrimSpace(TextField(activity.value.fields, "comment")) != ""
  }

  /** The trimmed ids in strictly increasing order, and the activity's other fields as they were. */
  ghost predicate Tidied(out: seq<Field>, ids: seq<string>, activity: seq<Field>) {
    exists loans: seq<string>, fields: seq<Field> ::
      && out == [Field("loan_ids", Strings(loans)), Field("activity", Object(fields))]
      && StrictlySorted(loans) && multiset(loans) == multiset(Trim(ids))
      && forall key :: Lookup(fields, key) == if key == "loan_id" then None else Lookup(activity, key)
  }

  lemma ActivityCheckMeans(payload: seq<Field>)
    ensures var activity := Lookup(payload, "activity");
            CheckActivity(payload).Ok? <==>
            && activity.Some? && activity.value.Object? && !NamesLoan(activity.value.fields)
            && TrimSpace(TextField(activity.value.fields, "result")) != ""
            && TrimSpace(TextField(activity.value.fields, "comment")) != ""
  {
  }

  lemma NormalisedIsTidied(ids: seq<string>, activity: seq<Field>)
    requires UniqueNonBlank(Trim(ids))
    ensures Tidied(Normalised(ids, activity), ids, activity)
  {
    var loans, fields := Sort(Trim(ids)), Remove(activity, "loan_id");
    SortedUniqueIsStrict(Trim(ids));
    forall key ensures Lookup(fields, key) == if key == "loan_id" then None else Lookup(activity, key) {
      RemoveKeepsOthers(activity, "loan_id", key);
    }
    assert Normalised(ids, activity) == [Field("loan_ids", Strings(loans)), Field("activity", Object(fields))];
  }

  /** Normalisation succeeds exactly for acceptable payloads, and tidies them. */
  lemma NormaliseMeaning(payload: seq<Field>)
    ensures Normalise(Some(payload)).Ok? <==> Acceptable(payload)
    ensures Acceptable(payload) ==>
              Tidied(Normalise(Some(payload)).value, Coerce(Lookup(payload, "loan_ids").value).value,
                     Lookup(payload, "activity").value.fields)
  {
    ActivityCheckMeans(payload);
    if Acceptable(payload) {
      NormalisedIsTidied(Coerce(Lookup(payload, "loan_ids").value).value, Lookup(payload, "activity").value.fields);
    }
  }

  lemma {:induction false} TrimBag(a: seq<string>, b: seq<string>)
    requires multiset(a) == multiset(b)
    ensures multiset(Trim(a)) == multiset(Trim(b))
  {
    assert |multiset(a)| == |a| && |multiset(b)| == |b|;
    if |a| > 0 {
      assert a[0] in multiset(b);
      var k :| 0 <= k < |b| && b[k] == a[0];
      var rest := b[..k] + b[k + 1..];
      TailBag(a);
      TakeOut(b, k);
      assert multiset(a[1..]) == multiset(a) - multiset{a[0]};
      TrimBag(a[1..], rest);
      TrimTail(a);
      TrimWithout(b, k);
    }
  }

  lemma TrimTail(a: seq<string>)
    requires |a| > 0
    ensures multiset(Trim(a)) == multiset{TrimSpace(a[0])} + multiset(Trim(a[1..]))
  {
    assert Trim(a) == [TrimSpace(a[0])] + Trim(a[1..]);
  }

  lemma TrimWithout(b: seq<string>, k: nat)
    requires k < |b|
    ensures multiset(Trim(b)) == multiset{TrimSpace(b[k])} + multiset(Trim(b[..k] + b[k + 1..]))
  {
    assert Trim(b[..k] + b[k + 1..]) == Trim(b)[..k] + Trim(b)[k + 1..];
    TakeOut(Trim(b), k);
  }

  lemma TakeOut(s: seq<string>, k: nat)
    requires k < |s|
    ensures multiset(s) == multiset{s[k]} + multiset(s[..k] + s[k + 1..])
  {
    assert s == s[..k] + [s[k]] + s[k + 1..];
  }

  lemma PermutedIds(a: seq<string>, b: seq<string>)
    requires multiset(a) == multiset(b)
    ensures |a| == |b| && Sort(Trim(a)) == Sort(Trim(b)) && (UniqueNonBlank(Trim(a)) <==> UniqueNonBlank(Trim(b)))
  {
    assert |multiset(a)| == |a| && |multiset(b)| == |b|;
    TrimBag(a, b);
    UniqueBag(Trim(a));
    UniqueBag(Trim(b));
    SortIgnoresOrder(Trim(a), Trim(b));
  }

  /** The outcome, error or result, does not depend on the order of the ids, nor on whether they came as
      `[]any` or `[]string`: permuted batches hash alike. */
  lemma OrderDoesNotMatter(p: seq<Field>, q: seq<Field>)
    requires Lookup(p, "activity") == Lookup(q, "activity")
    requires Lookup(p, "loan_ids").Some? && Coerce(Lookup(p, "loan_ids").value).Some?
    requires Lookup(q, "loan_ids").Some? && Coerce(Lookup(q, "loan_ids").value).Some?
    requires multiset(Coerce(Lookup(p, "loan_ids").value).value) == multiset(Coerce(Lookup(q, "loan_ids").value).value)
    ensures Normalise(Some(p)) == Normalise(Some(q))
  {
    PermutedIds(Coerce(Lookup(p, "loan_ids").value).value, Coerce(Lookup(q, "loan_ids").value).value);
    assert CheckActivity(p) == CheckActivity(q);
    assert CheckIds(p).Err? ==> CheckIds(q) == CheckIds(p);
    assert CheckIds(p).Ok? ==> CheckIds(q).Ok? && Sort(Trim(CheckIds(p).value)) == Sort(Trim(CheckIds(q).value));
  }

  lemma NeitherField(out: seq<Field>, key: string)
    requires |out| == 2 && out[0].key != key && out[1].key != key
    ensures Lookup(out, key) == None
  {
    assert Lookup(out[1..][1..], key) == None;
  }

  lemma TwoFields(ids: Value, activity: Value)
    ensures var out := [Field("loan_ids", ids), Field("activity", activity)];
            && Lookup(out, "loan_ids") == Some(ids) && Lookup(out, "activity") == Some(activity)
            && Lookup(out, "loan_id") == None && Lookup(out, "loanId") == None
  {
    var out := [Field("loan_ids", ids), Field("activity", activity)];
    assert out[1..] == [out[1]] && out[1..][1..] == [];
    NeitherField(out, "loan_id");
    NeitherField(out, "loanId");
  }

  lemma TrimTwice(ids: seq<string>)
    ensures Trim(Sort(Trim(ids))) == Sort(Trim(ids))
  {
    var sorted := Sort(Trim(ids));
    SortSorts(Trim(ids));
    forall i | 0 <= i < |sorted| ensures TrimSpace(sorted[i]) == sorted[i] {
      assert sorted[i] in multiset(sorted);
      assert sorted[i] in Trim(ids);
      var j :| 0 <= j < |ids| && Trim(ids)[j] == sorted[i];
      TrimSpaceTrims(ids[j]);
    }
  }

  lemma IdsAgain(ids: seq<string>, out: seq<Field>)
    requires UniqueNonBlank(Trim(ids)) && MIN_LOANS <= |ids| <= MAX_LOANS
    requires Lookup(out, "loan_ids") == Some(Strings(Sort(Trim(ids))))
    ensures CheckIds(out) == Ok(Sort(Trim(ids))) && Sort(Trim(Sort(Trim(ids)))) == Sort(Trim(ids))
  {
    var sorted := Sort(Trim(ids));
    SortedUniqueIsStrict(Trim(ids));
    SortSorts(Trim(ids));
    TrimTwice(ids);
    SortSorts(sorted);
    SortedUnique(Sort(sorted), sorted);
  }

  lemma ActivityAgain(payload: seq<Field>, out: seq<Field>)
    requires CheckActivity(payload).Ok?
    requires Lookup(out, "activity") == Some(Object(Remove(CheckActivity(payload).value, "loan_id")))
    ensures CheckActivity(out) == Ok(Remove(CheckActivity(payload).value, "loan_id"))
  {
    var activity := CheckActivity(payload).value;
    RemoveKeepsOthers(activity, "loan_id", "loan_id");
    RemoveKeepsOthers(activity, "loan_id", "result");
    RemoveKeepsOthers(activity, "loan_id", "comment");
  }

  /** Normalising again changes nothing. */
  lemma NormaliseIsIdempotent(payload: Option<seq<Field>>)
    requires Normalise(payload).Ok?
    ensures Normalise(Some(Normalise(payload).value)) == Normalise(payload)
  {
    var ids, activity := CheckIds(payload.value).value, CheckActivity(payload.value).value;
    var out := Normalised(ids, activity);
    TwoFields(Strings(Sort(Trim(ids))), Object(Remove(activity, "loan_id")));
    IdsAgain(ids, out);
    ActivityAgain(payload.value, out);
    NothingToRemove(activity, "loan_id");
  }

  /** What a normalised batch invalidates once it succeeds, whatever the handler adds beside these two
      fields: the listed loans are a `[]string`, so only a loan the activity itself still names counts. */
  lemma NormalisedBatchBumps(payload: Option<seq<Field>>, sent: seq<Field>, tenant: string, loan: string, id: nat)
    requires Normalise(payload).Ok?
    requires Lookup(sent, "loan_ids") == Lookup(Normalise(payload).value, "loan_ids")
    requires Lookup(sent, "activity") == Lookup(Normalise(payload).value, "activity")
    requires Lookup(sent, "loan_id") == None && Lookup(sent, "loanId") == None
    requires TrimSpace(tenant) != "" && TrimSpace(loan) != ""
    ensures RedisTimeline.Incr(RedisKeys.LoanScope(tenant, loan))
              in ActivityUsecase.BatchCommands(tenant, Some(sent), id, true)
            <==> ActivityUsecase.LoanIs(Lookup(payload.value, "activity").value.fields, TrimSpace(loan))
  {
    NormalisedNames(payload, sent, loan);
    ActivityUsecase.BatchBumpsExactlyNamedLoans(tenant, loan, Some(sent), id, true);
  }

  lemma NormalisedNames(payload: Option<seq<Field>>, sent: seq<Field>, loan: string)
    requires Normalise(payload).Ok?
    requires Lookup(sent, "loan_ids") == Lookup(Normalise(payload).value, "loan_ids")
    requires Lookup(sent, "activity") == Lookup(Normalise(payload).value, "activity")
    requires Lookup(sent, "loan_id") == None && Lookup(sent, "loanId") == None
    ensures ActivityUsecase.BatchNames(Some(sent), loan) <==>
            ActivityUsecase.LoanIs(Lookup(payload.value, "activity").value.fields, TrimSpace(loan))
  {
    var ids, activity := CheckIds(payload.value).value, CheckActivity(payload.value).value;
    TwoFields(Strings(Sort(Trim(ids))), Object(Remove(activity, "loan_id")));
    NamedByActivity(Some(sent), loan, Sort(Trim(ids)), Remove(activity, "loan_id"));
    RemovedNamesAlike(activity, TrimSpace(loan));
  }

  /** An activity that may be sent names the same loan without its `loan_id`, which was absent or nil. */
  lemma RemovedNamesAlike(activity: seq<Field>, loan: string)
    requires !NamesLoan(activity)
    ensures ActivityUsecase.LoanIs(Remove(activity, "loan_id"), loan) <==> ActivityUsecase.LoanIs(activity, loan)
  {
    RemoveKeepsOthers(activity, "loan_id", "loan_id");
    RemoveKeepsOthers(activity, "loan_id", "loanId");
    RemoveKeepsOthers(activity, "loan_id", "loan_ids");
  }

  lemma NamedByActivity(sent: Option<seq<Field>>, loan: string, texts: seq<string>, activity: seq<Field>)
    requires sent.Some?
    requires Lookup(sent.value, "loan_ids") == Some(Strings(texts))
             && Lookup(sent.value, "activity") == Some(Object(activity))
    requires Lookup(sent.value, "loan_id") == None && Lookup(sent.value, "loanId") == None
    ensures ActivityUsecase.BatchNames(sent, loan) <==> ActivityUsecase.LoanIs(activity, TrimSpace(loan))
  {
  }
}
