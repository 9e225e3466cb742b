/** Cache-aside reads and invalidating writes of activities, command by command. */
module ActivityUsecase {
  import opened Text
  import opened Values
  import opened VersionedCache
  import opened RedisTimeline
  import opened RedisClient
  import opened RedisKeys
  import A = ActivityCache

  // ----- which scopes a payload names -----

  function StringField(payload: seq<Field>, keys: seq<string>): string {
    if |keys| == 0 then ""
    else
      var v := Lookup(payload, keys[0]);
      if v.Some? && v.value.Str? && TrimSpace(v.value.s) != "" then TrimSpace(v.value.s)
      else StringField(payload, keys[1..])
  }

  /** The first non-blank string of a list, trimmed; "" when there is none. */
  function FirstText(items: seq<Value>): string {
    if |items| == 0 then ""
    else if items[0].Str? && TrimSpace(items[0].s) != "" then TrimSpace(items[0].s)
    else FirstText(items[1..])
  }

  /** Only a `[]any` counts as a list of loans here: a `[]string` fails the type assertion. */
  function LoanItems(payload: seq<Field>): seq<Value> {
    var v := Lookup(payload, "loan_ids");
    if v.Some? && v.value.List? then v.value.items else []
  }

  function PayloadLoan(payload: seq<Field>): string {
    var named := StringField(payload, ["loan_id", "loanId"]);
    if named != "" then named else FirstText(LoanItems(payload))
  }

  function PayloadClient(payload: seq<Field>): string {
    StringField(payload, ["client_id", "clientId"])
  }

  // What these mean, by what the payload holds.

  /** The field holds a text that is `text` when trimmed, and not blank. */
  predicate Says(payload: seq<Field>, key: string, text: string) {
    var v := Lookup(payload, key);
    v.Some? && v.value.Str? && text != "" && TrimSpace(v.value.s) == text
  }

  /** The field is absent, no text or blank. */
  predicate Silent(payload: seq<Field>, key: string) {
    var v := Lookup(payload, key);
    v.Some? && v.value.Str? ==> TrimSpace(v.value.s) == ""
  }

  predicate BlankItem(v: Value) {
    v.Str? ==> TrimSpace(v.s) == ""
  }

  ghost predicate FirstIs(items: seq<Value>, text: string) {
    exists i :: 0 <= i < |items| && items[i].Str? && text != "" && TrimSpace(items[i].s) == text
                && forall j :: 0 <= j < i ==> BlankItem(items[j])
  }

  /** The loan a payload names: in `loan_id`, else in `loanId`, else as the first text of a `[]any` `loan_ids`. */
  ghost predicate LoanIs(payload: seq<Field>, loan: string) {
    || Says(payload, "loan_id", loan)
    || (Silent(payload, "loan_id") && Says(payload, "loanId", loan))
    || (Silent(payload, "loan_id") && Silent(payload, "loanId")
        && var v := Lookup(payload, "loan_ids"); v.Some? && v.value.List? && FirstIs(v.value.items, loan))
  }

  ghost predicate ClientIs(payload: seq<Field>, client: string) {
    Says(payload, "client_id", client) || (Silent(payload, "client_id") && Says(payload, "clientId", client))
  }

  lemma TwoKeys(payload: seq<Field>, a: string, b: string, text: string)
    ensures StringField(payload, [a, b]) == text <==>
            if text == "" then Silent(payload, a) && Silent(payload, b)
            else Says(payload, a, text) || (Silent(payload, a) && Says(payload, b, text))
  {
    assert [a, b][1..] == [b] && [b][1..] == [];
    assert StringField(payload, []) == "";
    assert StringField(payload, [a, b][1..]) == StringField(payload, [b]);
  }

  lemma {:induction false} FirstTextIs(items: seq<Value>, text: string)
    ensures text != "" ==> (FirstText(items) == text <==> FirstIs(items, text))
    ensures FirstText(items) == "" <==> forall i :: 0 <= i < |items| ==> BlankItem(items[i])
  {
    if |items| > 0 {
      FirstTextIs(items[1..], text);
      assert forall i :: 0 <= i < |items| - 1 ==> items[1..][i] == items[i + 1];
      if FirstIs(items[1..], text) && BlankItem(items[0]) {
        var i :| 0 <= i < |items[1..]| && items[1..][i].Str? && TrimSpace(items[1..][i].s) == text
                 && forall j :: 0 <= j < i ==> BlankItem(items[1..][j]);
        assert items[i + 1].Str? && TrimSpace(items[i + 1].s) == text;
        forall j | 0 <= j < i + 1 ensures BlankItem(items[j]) { assert j > 0 ==> items[1..][j - 1] == items[j]; }
      }
      if text != "" && FirstIs(items, text) && BlankItem(items[0]) {
        var i :| 0 <= i < |items| && items[i].Str? && TrimSpace(items[i].s) == text
                 && forall j :: 0 <= j < i ==> BlankItem(items[j]);
        assert i > 0 && items[1..][i - 1] == items[i];
        assert FirstIs(items[1..], text);
      }
      if text != "" && FirstIs(items, text) && !BlankItem(items[0]) {
        var i :| 0 <= i < |items| && items[i].Str? && TrimSpace(items[i].s) == text
                 && forall j :: 0 <= j < i ==> BlankItem(items[j]);
        assert i == 0;
      }
    }
  }

  /** The loan and the client found are those, and blank when there is none. */
  lemma PayloadScopesAre(payload: seq<Field>, text: string)
    ensures text != "" ==> (PayloadLoan(payload) == text <==> LoanIs(payload, text))
    ensures text != "" ==> (PayloadClient(payload) == text <==> ClientIs(payload, text))
    ensures PayloadLoan(payload) == "" <==>
            Silent(payload, "loan_id") && Silent(payload, "loanId")
            && forall i :: 0 <= i < |LoanItems(payload)| ==> BlankItem(LoanItems(payload)[i])
    ensures PayloadClient(payload) == "" <==> Silent(payload, "client_id") && Silent(payload, "clientId")
  {
    TwoKeys(payload, "loan_id", "loanId", text);
    TwoKeys(payload, "loan_id", "loanId", "");
    TwoKeys(payload, "client_id", "clientId", text);
    TwoKeys(payload, "client_id", "clientId", "");
    FirstTextIs(LoanItems(payload), text);
  }

  method ScopeIDsFromPayload(payload: Option<seq<Field>>) returns (loan: string, client: string)
    ensures payload == None ==> loan == "" && client == ""
    ensures payload.Some? ==> loan == PayloadLoan(payload.value) && client == PayloadClient(payload.value)
    ensures payload.Some? ==> forall text :: text != "" ==> (loan == text <==> LoanIs(payload.value, text))
    ensures payload.Some? ==> forall text :: text != "" ==> (client == text <==> ClientIs(payload.value, text))
  {
    if payload.Some? {
      forall text ensures text != "" ==> (PayloadLoan(payload.value) == text <==> LoanIs(payload.value, text))
                  ensures text != "" ==> (PayloadClient(payload.value) == text <==> ClientIs(payload.value, text))
      {
        PayloadScopesAre(payload.value, text);
      }
    }
    if payload == None {
      return "", "";
    }
    loan := StringField(payload.value, ["loan_id", "loanId"]);
    client := StringField(payload.value, ["client_id", "clientId"]);
    var items := LoanItems(payload.value);
    for i := 0 to |items|
      invariant PayloadLoan(payload.value) == if loan != "" then loan else FirstText(items[i..])
    {
      assert items[i..][1..] == items[i + 1..];
      if items[i].Str? && TrimSpace(items[i].s) != "" {
        if loan == "" {
          loan := TrimSpace(items[i].s);
        }
      }
    }
  }

  // ----- commands of a write -----

  /** `INCR` and `EXPIRE` of one counter. */
  function BumpOf(scope: Scope): seq<Command> {
    if scope == NO_SCOPE then [] else [Incr(scope), Expire(scope)]
  }

  function ScopeBumps(tenant: string, loan: string, client: string): seq<Command> {
    if TrimSpace(tenant) == "" then [] else BumpOf(LoanScope(tenant, loan)) + BumpOf(ClientScope(tenant, client))
  }

  lemma LoanClientScopes(tenant: string, loan: string, client: string)
    ensures LoanScope(tenant, loan) == NO_SCOPE <==> TrimSpace(loan) == ""
    ensures ClientScope(tenant, client) == NO_SCOPE <==> TrimSpace(client) == ""
  {
  }

  function PayloadBumps(tenant: string, payload: Option<seq<Field>>): seq<Command> {
    if payload == None then ScopeBumps(tenant, "", "")
    else ScopeBumps(tenant, PayloadLoan(payload.value), PayloadClient(payload.value))
  }

  function CreateCommands(tenant: string, payload: Option<seq<Field>>, id: nat, coreOk: bool): seq<Command> {
    if !coreOk then [] else [Commit(id)] + PayloadBumps(tenant, payload)
  }

  function ActivityOf(payload: Option<seq<Field>>): Option<seq<Field>> {
    if payload == None then None
    else
      var v := Lookup(payload.value, "activity");
      if v.Some? && v.value.Object? then Some(v.value.fields) else None
  }

  function EachLoan(tenant: string, items: seq<Value>): seq<Command> {
    if |items| == 0 then []
    else (if items[0].Str? then ScopeBumps(tenant, items[0].s, "") else []) + EachLoan(tenant, items[1..])
  }

  function BatchCommands(tenant: string, payload: Option<seq<Field>>, id: nat, coreOk: bool): seq<Command> {
    if !coreOk then []
    else
      [Commit(id)] + PayloadBumps(tenant, payload)
      + (if ActivityOf(payload).Some? then PayloadBumps(tenant, ActivityOf(payload)) else [])
      + EachLoan(tenant, if payload.Some? then LoanItems(payload.value) else [])
  }

  // ----- the Redis cache -----

  class ReadCache {
    const digest: string -> string

    constructor (digest: string -> string)
      ensures this.digest == digest
    {
      this.digest := digest;
    }

    /** Loan version first, then client version. */
    method Versions(w: World, req: Request) returns (versions: seq<nat>)
      requires w.history.WellFormed() && |req.scopes| == 2
      modifies w
      ensures w.history == AfterReads(old(w.history), req.scopes) && w.history.WellFormed()
      ensures Now(w.history) == Now(old(w.history)) && versions == VersionsAt(Now(old(w.history)), req.scopes)
    {
      var loanVer := w.Version(req.scopes[0]);
      var clientVer := w.Version(req.scopes[1]);
      versions := [loanVer, clientVer];
      assert Reads(req.scopes) == [ReadVersion(req.scopes[0])] + [ReadVersion(req.scopes[1])];
      Associative(old(w.history.trace), [ReadVersion(req.scopes[0])], [ReadVersion(req.scopes[1])]);
    }

    method GetList(w: World, r: A.ListRequest) returns (items: Option<seq<nat>>)
      requires w.history.WellFormed()
      modifies w
      ensures w.history.WellFormed()
      ensures var req := ActivityRequest(digest, r);
              if A.Cacheable(r) then w.history == AfterGet(old(w.history), req) && items == LastReply(w.history)
              else w.history == old(w.history) && items == None
    {
      if !A.Cacheable(r) {
        return None;
      }
      items := FetchList(w, ActivityRequest(digest, r));
    }

    method FetchList(w: World, req: Request) returns (items: Option<seq<nat>>)
      requires w.history.WellFormed() && |req.scopes| == 2
      modifies w
      ensures w.history.WellFormed()
      ensures w.history == AfterGet(old(w.history), req) && items == LastReply(w.history)
    {
      var start := End(w.history);
      ReadsAreDone(w.history, req, VersionsAt(Now(w.history), req.scopes));
      var versions := Versions(w, req);
      items := w.GetEntry(req, versions, Positions(start, 2));
    }

    /** `load` is where in the history the list was read from Core; a nil payload is not stored. */
    method SetList(w: World, r: A.ListRequest, load: nat, payload: Option<seq<nat>>)
      requires w.history.WellFormed()
      requires payload.Some? ==> WasLoaded(w.history, ActivityRequest(digest, r), load, payload.value)
      modifies w
      ensures w.history.WellFormed()
      ensures w.history == if payload.Some? && A.Cacheable(r)
                           then AfterSet(old(w.history), ActivityRequest(digest, r), load, ACTIVITY_TTL, payload.value)
                           else old(w.history)
    {
      if payload == None || !A.Cacheable(r) {
        return;
      }
      WriteList(w, ActivityRequest(digest, r), load, payload.value);
    }

    method WriteList(w: World, req: Request, load: nat, items: seq<nat>)
      requires w.history.WellFormed() && |req.scopes| == 2 && WasLoaded(w.history, req, load, items)
      modifies w
      ensures w.history.WellFormed()
      ensures w.history == AfterSet(old(w.history), req, load, ACTIVITY_TTL, items)
    {
      var start := End(w.history);
      LoadedBeforeRead(w.history, req, load, ACTIVITY_TTL, items);
      var versions := Versions(w, req);
      w.Do(Write(req, versions, Positions(start, 2), load, ACTIVITY_TTL, items));
    }

    /** A blank tenant invalidates nothing, and so does a blank id. */
    method InvalidateScopes(w: World, tenant: string, loan: string, client: string)
      requires w.history.WellFormed()
      modifies w
      ensures w.history.WellFormed()
      ensures w.history == old(w.history).(trace := old(w.history.trace) + ScopeBumps(tenant, loan, client))
    {
      if TrimSpace(tenant) == "" {
        assert w.history.trace + [] == w.history.trace;
        return;
      }
      LoanClientScopes(tenant, loan, client);
      if TrimSpace(loan) != "" {
        w.BumpScope(LoanScope(tenant, loan));
      }
      if TrimSpace(client) != "" {
        w.BumpScope(ClientScope(tenant, client));
      }
      ghost var before := old(w.history.trace);
      assert w.history.trace == before + (BumpOf(LoanScope(tenant, loan)) + BumpOf(ClientScope(tenant, client)));
    }
  }

  // ----- use cases -----

  class ActivitiesUsecase {
    const cache: ReadCache

    constructor (cache: ReadCache)
      ensures this.cache == cache
    {
      this.cache := cache;
    }

    method ListActivities(w: World, r: A.ListRequest, core: CoreAnswer)
      returns (result: Result<Option<seq<nat>>, CoreError>)
      requires w.history.WellFormed()
      modifies w
      ensures w.history.WellFormed()
      ensures (w.history, result)
           == ReadRun(old(w.history), ActivityRequest(cache.digest, r), A.Cacheable(r), ACTIVITY_TTL, core)
    {
      var cached := cache.GetList(w, r);
      if cached.Some? {
        return Ok(cached);
      }
      var load, payload := End(w.history), None;
      match core {
        case Fails => return Err(CoreUnavailable);
        case AnswersNull =>
        case Lists =>
          var items := w.ListFromCore(ActivityRequest(cache.digest, r));
          payload := Some(items);
      }
      cache.SetList(w, r, load, payload);
      result := Ok(payload);
    }

    method CreateActivity(w: World, tenant: string, payload: Option<seq<Field>>, id: nat, coreOk: bool)
      returns (result: Result<nat, CoreError>)
      requires w.history.WellFormed()
      modifies w
      ensures w.history.WellFormed()
      ensures w.history == old(w.history).(trace := old(w.history.trace) + CreateCommands(tenant, payload, id, coreOk))
      ensures result == if coreOk then Ok(id) else Err(CoreUnavailable)
    {
      if !coreOk {
        assert w.history.trace + [] == w.history.trace;
        return Err(CoreUnavailable);
      }
      w.Do(Commit(id));
      InvalidateFromPayload(w, tenant, payload);
      Associative(old(w.history.trace), [Commit(id)], PayloadBumps(tenant, payload));
      result := Ok(id);
    }

    method InvalidateFromPayload(w: World, tenant: string, payload: Option<seq<Field>>)
      requires w.history.WellFormed()
      modifies w
      ensures w.history.WellFormed()
      ensures w.history == old(w.history).(trace := old(w.history.trace) + PayloadBumps(tenant, payload))
    {
      var loan, client := ScopeIDsFromPayload(payload);
      cache.InvalidateScopes(w, tenant, loan, client);
    }

    method CreateActivityBatch(w: World, tenant: string, payload: Option<seq<Field>>, id: nat, coreOk: bool)
      returns (result: Result<nat, CoreError>)
      requires w.history.WellFormed()
      modifies w
      ensures w.history.WellFormed()
      ensures w.history == old(w.history).(trace := old(w.history.trace) + BatchCommands(tenant, payload, id, coreOk))
      ensures result == if coreOk then Ok(id) else Err(CoreUnavailable)
    {
      ghost var before := w.history.trace;
      if !coreOk {
        assert before + [] == before;
        return Err(CoreUnavailable);
      }
      w.Do(Commit(id));
      InvalidateFromPayload(w, tenant, payload);
      Associative(before, [Commit(id)], PayloadBumps(tenant, payload));
      ghost var done := [Commit(id)] + PayloadBumps(tenant, payload);
      var activity := ActivityOf(payload);
      if activity.Some? {
        InvalidateFromPayload(w, tenant, activity);
      } else {
        assert w.history.trace + [] == w.history.trace;
      }
      Associative(before, done, if activity.Some? then PayloadBumps(tenant, activity) else []);
      done := done + if activity.Some? then PayloadBumps(tenant, activity) else [];
      var items := if payload.Some? then LoanItems(payload.value) else [];
      ghost var all := done + EachLoan(tenant, items);
      for i := 0 to |items|
        invariant w.history.WellFormed()
        invariant w.history == old(w.history).(trace := before + done)
        invariant all == done + EachLoan(tenant, items[i..])
      {
        assert items[i..][1..] == items[i + 1..];
        ghost var bumps := if items[i].Str? then ScopeBumps(tenant, items[i].s, "") else [];
        Associative(before, done, bumps);
        Associative(done, bumps, EachLoan(tenant, items[i + 1..]));
        if items[i].Str? {
          cache.InvalidateScopes(w, tenant, items[i].s, "");
        } else {
          assert w.history.trace + [] == w.history.trace;
        }
        done := done + bumps;
      }
      assert done + [] == done;
      result := Ok(id);
    }
  }

  // ----- which counters a write bumps -----

  ghost predicate PayloadNames(payload: Option<seq<Field>>, loan: string) {
    payload.Some? && LoanIs(payload.value, TrimSpace(loan))
  }

  ghost predicate PayloadNamesClient(payload: Option<seq<Field>>, client: string) {
    payload.Some? && ClientIs(payload.value, TrimSpace(client))
  }

  /** The object in the field `activity` names it. */
  ghost predicate ActivityNames(payload: Option<seq<Field>>, loan: string) {
    payload.Some? &&
    var v := Lookup(payload.value, "activity"); v.Some? && v.value.Object? && LoanIs(v.value.fields, TrimSpace(loan))
  }

  ghost predicate ActivityNamesClient(payload: Option<seq<Field>>, client: string) {
    payload.Some? &&
    var v := Lookup(payload.value, "activity");
    v.Some? && v.value.Object? && ClientIs(v.value.fields, TrimSpace(client))
  }

  /** A `[]any` in the field `loan_ids` lists it. */
  ghost predicate Lists(payload: Option<seq<Field>>, loan: string) {
    payload.Some? &&
    var v := Lookup(payload.value, "loan_ids");
    && v.Some? && v.value.List?
    && exists item :: item in v.value.items && item.Str? && TrimSpace(item.s) == TrimSpace(loan)
  }

  ghost predicate BatchNames(payload: Option<seq<Field>>, loan: string) {
    PayloadNames(payload, loan) || ActivityNames(payload, loan) || Lists(payload, loan)
  }

  /** A list of bumps: every counter that is incremented is given a new 24 hours at once. */
  ghost predicate Bumping(commands: seq<Command>) {
    && (forall k :: 0 <= k < |commands| ==> commands[k].Incr? || commands[k].Expire?)
    && (forall k :: 0 <= k < |commands| && commands[k].Incr? ==>
          commands[k].scope != NO_SCOPE && k + 1 < |commands| && commands[k + 1] == Expire(commands[k].scope))
  }

  lemma BumpingAppend(a: seq<Command>, b: seq<Command>)
    requires Bumping(a) && Bumping(b)
    ensures Bumping(a + b)
  {
    var all := a + b;
    forall k | 0 <= k < |all| && all[k].Incr?
      ensures all[k].scope != NO_SCOPE && k + 1 < |all| && all[k + 1] == Expire(all[k].scope)
    {
      if k >= |a| {
        assert b[k - |a|] == all[k];
      }
    }
  }

  lemma PayloadBumping(tenant: string, payload: Option<seq<Field>>)
    ensures Bumping(PayloadBumps(tenant, payload))
  {
    var loan := if payload.Some? then PayloadLoan(payload.value) else "";
    var client := if payload.Some? then PayloadClient(payload.value) else "";
    ScopesBumping(tenant, loan, client);
  }

  lemma ScopesBumping(tenant: string, loan: string, client: string)
    ensures Bumping(ScopeBumps(tenant, loan, client))
  {
    BumpingAppend(BumpOf(LoanScope(tenant, loan)), BumpOf(ClientScope(tenant, client)));
  }

  lemma {:induction false} EachLoanBumping(tenant: string, items: seq<Value>)
    ensures Bumping(EachLoan(tenant, items))
    ensures TrimSpace(tenant) == "" ==> EachLoan(tenant, items) == []
  {
    if |items| > 0 {
      EachLoanBumping(tenant, items[1..]);
      if items[0].Str? {
        ScopesBumping(tenant, items[0].s, "");
        BumpingAppend(ScopeBumps(tenant, items[0].s, ""), EachLoan(tenant, items[1..]));
      }
    }
  }

  /** A write that Core refuses touches nothing; otherwise the commit comes first, then bumps, of which there
      are none under a blank tenant. */
  ghost predicate CommitsThenBumps(commands: seq<Command>, tenant: string, id: nat, coreOk: bool) {
    if !coreOk then commands == []
    else
      && |commands| > 0 && commands[0] == Commit(id) && Bumping(commands[1..])
      && (TrimSpace(tenant) == "" ==> commands[1..] == [])
  }

  lemma CommitFirst(tenant: string, bumps: seq<Command>, id: nat)
    requires Bumping(bumps) && (TrimSpace(tenant) == "" ==> bumps == [])
    ensures CommitsThenBumps([Commit(id)] + bumps, tenant, id, true)
  {
    assert ([Commit(id)] + bumps)[1..] == bumps;
  }

  lemma CreateCommitsThenBumps(tenant: string, payload: Option<seq<Field>>, id: nat, coreOk: bool)
    ensures CommitsThenBumps(CreateCommands(tenant, payload, id, coreOk), tenant, id, coreOk)
  {
    PayloadBumping(tenant, payload);
    CommitFirst(tenant, PayloadBumps(tenant, payload), id);
  }

  lemma BatchCommitsThenBumps(tenant: string, payload: Option<seq<Field>>, id: nat, coreOk: bool)
    ensures CommitsThenBumps(BatchCommands(tenant, payload, id, coreOk), tenant, id, coreOk)
  {
    var first := PayloadBumps(tenant, payload);
    var second := if ActivityOf(payload).Some? then PayloadBumps(tenant, ActivityOf(payload)) else [];
    var items := if payload.Some? then LoanItems(payload.value) else [];
    PayloadBumping(tenant, payload);
    PayloadBumping(tenant, ActivityOf(payload));
    EachLoanBumping(tenant, items);
    BumpingAppend(first, second);
    BumpingAppend(first + second, EachLoan(tenant, items));
    CommitFirst(tenant, first + second + EachLoan(tenant, items), id);
    Associative([Commit(id)], first, second);
    Associative([Commit(id)], first + second, EachLoan(tenant, items));
  }

  lemma NeverBumped(commands: seq<Command>, tenant: string, id: nat, coreOk: bool, scope: Scope)
    requires CommitsThenBumps(commands, tenant, id, coreOk)
    ensures Incr(NO_SCOPE) !in commands
    ensures !coreOk || TrimSpace(tenant) == "" ==> Incr(scope) !in commands
  {
    if coreOk {
      assert commands == [Commit(id)] + commands[1..];
    }
  }

  lemma {:induction false} PayloadLoanTrimmed(payload: seq<Field>)
    ensures TrimSpace(PayloadLoan(payload)) == PayloadLoan(payload)
  {
    StringFieldTrimmed(payload, ["loan_id", "loanId"]);
    FirstTextTrimmed(LoanItems(payload));
  }

  lemma {:induction false} StringFieldTrimmed(payload: seq<Field>, keys: seq<string>)
    ensures TrimSpace(StringField(payload, keys)) == StringField(payload, keys)
  {
    if |keys| > 0 {
      StringFieldTrimmed(payload, keys[1..]);
      var v := Lookup(payload, keys[0]);
      if v.Some? && v.value.Str? {
        TrimSpaceTrims(v.value.s);
      }
    }
  }

  lemma {:induction false} FirstTextTrimmed(items: seq<Value>)
    ensures TrimSpace(FirstText(items)) == FirstText(items)
  {
    if |items| > 0 {
      FirstTextTrimmed(items[1..]);
      if items[0].Str? {
        TrimSpaceTrims(items[0].s);
      }
    }
  }

  lemma ScopeBumpsLoan(tenant: string, loan: string, named: string, client: string)
    requires TrimSpace(tenant) != "" && TrimSpace(loan) != ""
    ensures Incr(LoanScope(tenant, loan)) in ScopeBumps(tenant, named, client) <==> TrimSpace(named) == TrimSpace(loan)
  {
    CountersApart(tenant, "loan", loan, tenant, "loan", named);
    CountersApart(tenant, "loan", loan, tenant, "client", client);
    LoanIsNoClient();
    var scope := LoanScope(tenant, loan);
    assert scope != NO_SCOPE;
    assert Incr(scope) in BumpOf(LoanScope(tenant, named)) <==> LoanScope(tenant, named) == scope;
    assert Incr(scope) !in BumpOf(ClientScope(tenant, client));
  }

  lemma ScopeBumpsClient(tenant: string, client: string, loan: string, named: string)
    requires TrimSpace(tenant) != "" && TrimSpace(client) != ""
    ensures Incr(ClientScope(tenant, client)) in ScopeBumps(tenant, loan, named) <==>
            TrimSpace(named) == TrimSpace(client)
  {
    CountersApart(tenant, "client", client, tenant, "client", named);
    CountersApart(tenant, "client", client, tenant, "loan", loan);
    LoanIsNoClient();
    var scope := ClientScope(tenant, client);
    assert scope != NO_SCOPE;
    assert Incr(scope) in BumpOf(ClientScope(tenant, named)) <==> ClientScope(tenant, named) == scope;
    assert Incr(scope) !in BumpOf(LoanScope(tenant, loan));
  }

  lemma {:induction false} EachLoanBumps(tenant: string, loan: string, items: seq<Value>)
    requires TrimSpace(tenant) != "" && TrimSpace(loan) != ""
    ensures Incr(LoanScope(tenant, loan)) in EachLoan(tenant, items) <==>
            exists v :: v in items && v.Str? && TrimSpace(v.s) == TrimSpace(loan)
  {
    if |items| > 0 {
      EachLoanBumps(tenant, loan, items[1..]);
      assert items == [items[0]] + items[1..];
      if items[0].Str? {
        ScopeBumpsLoan(tenant, loan, items[0].s, "");
      }
    }
  }

  lemma {:induction false} EachLoanBumpsNoClient(tenant: string, client: string, items: seq<Value>)
    requires TrimSpace(tenant) != "" && TrimSpace(client) != ""
    ensures Incr(ClientScope(tenant, client)) !in EachLoan(tenant, items)
  {
    if |items| > 0 {
      EachLoanBumpsNoClient(tenant, client, items[1..]);
      if items[0].Str? {
        ScopeBumpsClient(tenant, client, items[0].s, "");
      }
    }
  }

  lemma PayloadBumpsLoan(tenant: string, loan: string, payload: Option<seq<Field>>)
    requires TrimSpace(tenant) != "" && TrimSpace(loan) != ""
    ensures Incr(LoanScope(tenant, loan)) in PayloadBumps(tenant, payload) <==> PayloadNames(payload, loan)
  {
    if payload.Some? {
      PayloadLoanTrimmed(payload.value);
      PayloadScopesAre(payload.value, TrimSpace(loan));
      ScopeBumpsLoan(tenant, loan, PayloadLoan(payload.value), PayloadClient(payload.value));
    } else {
      ScopeBumpsLoan(tenant, loan, "", "");
    }
  }

  lemma PayloadBumpsClient(tenant: string, client: string, payload: Option<seq<Field>>)
    requires TrimSpace(tenant) != "" && TrimSpace(client) != ""
    ensures Incr(ClientScope(tenant, client)) in PayloadBumps(tenant, payload) <==> PayloadNamesClient(payload, client)
  {
    if payload.Some? {
      StringFieldTrimmed(payload.value, ["client_id", "clientId"]);
      PayloadScopesAre(payload.value, TrimSpace(client));
      ScopeBumpsClient(tenant, client, PayloadLoan(payload.value), PayloadClient(payload.value));
    } else {
      ScopeBumpsClient(tenant, client, "", "");
    }
  }

  /** A create bumps a loan's or a client's counter exactly when it succeeds, under a tenant, and its payload
      names it. */
  lemma CreateBumpsExactlyNamed(tenant: string, id: string, payload: Option<seq<Field>>, created: nat, coreOk: bool)
    ensures var commands := CreateCommands(tenant, payload, created, coreOk);
            && (Incr(LoanScope(tenant, id)) in commands <==>
                coreOk && TrimSpace(tenant) != "" && PayloadNames(payload, id))
            && (Incr(ClientScope(tenant, id)) in commands <==>
                coreOk && TrimSpace(tenant) != "" && PayloadNamesClient(payload, id))
  {
    CreateCommitsThenBumps(tenant, payload, created, coreOk);
    var commands := CreateCommands(tenant, payload, created, coreOk);
    NeverBumped(commands, tenant, created, coreOk, LoanScope(tenant, id));
    NeverBumped(commands, tenant, created, coreOk, ClientScope(tenant, id));
    if coreOk && TrimSpace(tenant) != "" && TrimSpace(id) != "" {
      PayloadBumpsLoan(tenant, id, payload);
      PayloadBumpsClient(tenant, id, payload);
    }
  }

  /** A batch create bumps a loan's counter exactly when it succeeds, under a tenant, and names the loan in
      `loan_id`/`loanId`, in the same fields of `activity`, or as a string of a `[]any` `loan_ids`. */
  lemma BatchBumpsExactlyNamedLoans(tenant: string, loan: string, payload: Option<seq<Field>>, id: nat, coreOk: bool)
    ensures Incr(LoanScope(tenant, loan)) in BatchCommands(tenant, payload, id, coreOk) <==>
            coreOk && TrimSpace(tenant) != "" && TrimSpace(loan) != "" && BatchNames(payload, loan)
  {
    BatchCommitsThenBumps(tenant, payload, id, coreOk);
    NeverBumped(BatchCommands(tenant, payload, id, coreOk), tenant, id, coreOk, LoanScope(tenant, loan));
    if coreOk && TrimSpace(tenant) != "" && TrimSpace(loan) != "" {
      PayloadBumpsLoan(tenant, loan, payload);
      PayloadBumpsLoan(tenant, loan, ActivityOf(payload));
      EachLoanBumps(tenant, loan, if payload.Some? then LoanItems(payload.value) else []);
    }
  }

  /** And a client's exactly when the payload or its `activity` names it; the list of loans adds none. */
  lemma BatchBumpsExactlyNamedClients(tenant: string, client: string, payload: Option<seq<Field>>, id: nat,
                                      coreOk: bool)
    ensures Incr(ClientScope(tenant, client)) in BatchCommands(tenant, payload, id, coreOk) <==>
            && coreOk && TrimSpace(tenant) != ""
            && (PayloadNamesClient(payload, client) || ActivityNamesClient(payload, client))
  {
    BatchCommitsThenBumps(tenant, payload, id, coreOk);
    NeverBumped(BatchCommands(tenant, payload, id, coreOk), tenant, id, coreOk, ClientScope(tenant, client));
    if coreOk && TrimSpace(tenant) != "" && TrimSpace(client) != "" {
      PayloadBumpsClient(tenant, client, payload);
      PayloadBumpsClient(tenant, client, ActivityOf(payload));
      EachLoanBumpsNoClient(tenant, client, if payload.Some? then LoanItems(payload.value) else []);
    }
  }

  /** So a batch whose `loan_ids` is a `[]any` of strings invalidates every non-blank one of them... */
  lemma AnyListBumpsEveryLoan(tenant: string, payload: seq<Field>, items: seq<Value>, i: nat, id: nat)
    requires Lookup(payload, "loan_ids") == Some(List(items))
    requires i < |items| && items[i].Str? && TrimSpace(items[i].s) != "" && TrimSpace(tenant) != ""
    ensures Incr(LoanScope(tenant, items[i].s)) in BatchCommands(tenant, Some(payload), id, true)
  {
    BatchBumpsExactlyNamedLoans(tenant, items[i].s, Some(payload), id, true);
    assert items[i] in LoanItems(payload);
  }

  /** ...but the normalised payload the handler sends carries a `[]string`, whose loans do not count: a loan is
      bumped only if `loan_id`, `loanId` or the activity names it. */
  lemma StringListBumpsNoLoan(tenant: string, payload: seq<Field>, texts: seq<string>, loan: string, id: nat)
    requires Lookup(payload, "loan_ids") == Some(Strings(texts)) && TrimSpace(tenant) != ""
    ensures Incr(LoanScope(tenant, loan)) in BatchCommands(tenant, Some(payload), id, true) <==>
            || Says(payload, "loan_id", TrimSpace(loan))
            || (Silent(payload, "loan_id") && Says(payload, "loanId", TrimSpace(loan)))
            || ActivityNames(Some(payload), loan)
  {
    BatchBumpsExactlyNamedLoans(tenant, loan, Some(payload), id, true);
  }

  /** A client that asks for the version of scope `j` only after all these commands, which may be interleaved with
      anyone's, gets a list: it was written under a version read after the scope's bump, unless the counter was
      due to expire, and if it misses the change it was loaded from Core before the commit. */
  ghost predicate MissesOnlyByRace(h: History, at: seq<nat>, id: nat, scope: Scope, q: nat, j: nat)
    requires q < |h.trace| && h.trace[q].Fetch? && h.Hit(q).Some? && |at| > 0
  {
    var e := h.Hit(q).value; var p := e.writer;
    && p < q && h.trace[p].Write? && h.trace[p].req == h.trace[q].req
    && j < |h.trace[p].readAt| && j < |h.trace[p].req.scopes| && h.trace[p].readAt[j] < p
    && (id !in e.items <==> h.trace[p].load <= at[0])
    && (h.Outlasts(p, j) ==> exists k :: 0 < k < |at| && at[k] < |h.trace| && h.trace[at[k]] == Incr(scope)
                                         && at[k] < h.trace[p].readAt[j])
  }

  /** The fetch at `q` is for that list, by a client that asked for the version of scope `j` after all commands. */
  ghost predicate AsksLater(h: History, digest: string -> string, at: seq<nat>, r: A.ListRequest, id: nat, q: nat,
                            j: nat)
  {
    && q < |h.trace| && h.trace[q].Fetch? && h.trace[q].req == ActivityRequest(digest, r) && h.Hit(q).Some?
    && j < 2 && |h.trace[q].readAt| == 2 && (forall k :: 0 <= k < |at| ==> at[k] < h.trace[q].readAt[j])
    && |at| > 0 && h.listed(id, h.trace[q].req)
    && forall n :: 0 <= n < |h.trace| && h.trace[n] == Commit(id) ==> n == at[0]
  }

  lemma BumpMakesListsMiss(h: History, digest: string -> string, commands: seq<Command>, at: seq<nat>, tenant: string,
                           id: nat, r: A.ListRequest, scope: Scope, q: nat, j: nat)
    requires h.WellFormed() && AllDistinct(h.sep, h.Reqs()) && Scattered(h, at, commands)
    requires CommitsThenBumps(commands, tenant, id, true) && Incr(scope) in commands
    requires AsksLater(h, digest, at, r, id, q, j) && ActivityRequest(digest, r).scopes[j] == scope
    ensures MissesOnlyByRace(h, at, id, scope, q, j)
  {
    var k :| 0 <= k < |commands| && commands[k] == Incr(scope);
    assert h.trace[at[0]] == Commit(id) && h.trace[at[k]] == Incr(scope) && at[0] < at[k];
    assert h.FollowsProgram(q);
    EarlierEntriesMiss(h, at[k], q, j);
    StaleOnlyByRace(h, id, at[0], at[k], q, j);
  }

  /** After a batch create that names a list's loan (`j` is 0) or its client (`j` is 1). */
  lemma BatchMakesListsMiss(h: History, digest: string -> string, tenant: string, payload: Option<seq<Field>>, id: nat,
                            at: seq<nat>, r: A.ListRequest, q: nat, j: nat)
    requires h.WellFormed() && AllDistinct(h.sep, h.Reqs())
    requires Scattered(h, at, BatchCommands(tenant, payload, id, true)) && AsksLater(h, digest, at, r, id, q, j)
    requires TrimSpace(tenant) != "" && TrimSpace(r.tenant) == TrimSpace(tenant)
    requires if j == 0 then TrimSpace(r.loan) != "" && BatchNames(payload, r.loan)
             else PayloadNamesClient(payload, r.client) || ActivityNamesClient(payload, r.client)
    ensures var scope := if j == 0 then LoanScope(tenant, r.loan) else ClientScope(tenant, r.client);
            MissesOnlyByRace(h, at, id, scope, q, j)
  {
    var commands := BatchCommands(tenant, payload, id, true);
    BatchCommitsThenBumps(tenant, payload, id, true);
    BatchBumpsExactlyNamedLoans(tenant, r.loan, payload, id, true);
    BatchBumpsExactlyNamedClients(tenant, r.client, payload, id, true);
    ScopesOfList(digest, r, tenant);
    BumpMakesListsMiss(h, digest, commands, at, tenant, id, r,
                       if j == 0 then LoanScope(tenant, r.loan) else ClientScope(tenant, r.client), q, j);
  }

  /** And after a create that does. */
  lemma CreateMakesListsMiss(h: History, digest: string -> string, tenant: string, payload: Option<seq<Field>>, id: nat,
                             at: seq<nat>, r: A.ListRequest, q: nat, j: nat)
    requires h.WellFormed() && AllDistinct(h.sep, h.Reqs())
    requires Scattered(h, at, CreateCommands(tenant, payload, id, true)) && AsksLater(h, digest, at, r, id, q, j)
    requires TrimSpace(tenant) != "" && TrimSpace(r.tenant) == TrimSpace(tenant)
    requires if j == 0 then PayloadNames(payload, r.loan) else PayloadNamesClient(payload, r.client)
    ensures var scope := if j == 0 then LoanScope(tenant, r.loan) else ClientScope(tenant, r.client);
            MissesOnlyByRace(h, at, id, scope, q, j)
  {
    var commands := CreateCommands(tenant, payload, id, true);
    CreateCommitsThenBumps(tenant, payload, id, true);
    CreateBumpsExactlyNamed(tenant, r.loan, payload, id, true);
    CreateBumpsExactlyNamed(tenant, r.client, payload, id, true);
    ScopesOfList(digest, r, tenant);
    BumpMakesListsMiss(h, digest, commands, at, tenant, id, r,
                       if j == 0 then LoanScope(tenant, r.loan) else ClientScope(tenant, r.client), q, j);
  }

  lemma ScopesOfList(digest: string -> string, r: A.ListRequest, tenant: string)
    requires TrimSpace(r.tenant) == TrimSpace(tenant)
    ensures ActivityRequest(digest, r).scopes == [LoanScope(tenant, r.loan), ClientScope(tenant, r.client)]
  {
  }

  // ----- the schedule that serves a stale list -----

  lemma PlainCreate(tenant: string, payload: Option<seq<Field>>, id: nat)
    ensures forall c :: c in CreateCommands(tenant, payload, id, true) ==> Plain(c)
    ensures Commit(id) in CreateCommands(tenant, payload, id, true)
  {
    assert CreateCommands(tenant, payload, id, true)[0] == Commit(id);
  }

  /** From every history: a reader loads a list from Core, a create that the list should show commits and
      bumps, and only then does the reader ask for the versions and write. The next reader is served the
      list without the create, although the create bumped that very loan. */
  lemma RaceServesStale(h: History, digest: string -> string, r: A.ListRequest, payload: Option<seq<Field>>, id: nat)
    requires h.WellFormed() && A.Cacheable(r)
    requires h.listed(id, ActivityRequest(digest, r)) && Commit(id) !in h.trace
    ensures var req := ActivityRequest(digest, r);
            var items := h.CoreList(End(h), req);
            var loaded := Then(h, Load(req));
            var created := loaded.(trace := loaded.trace + CreateCommands(r.tenant, payload, id, true));
            var asked := AfterGet(AfterSet(created, req, End(h), ACTIVITY_TTL, items), req);
            && asked.WellFormed() && LastReply(asked) == Some(items)
            && id !in items && id in asked.CoreList(End(asked), req)
            && (TrimSpace(r.tenant) != "" && TrimSpace(r.loan) != "" && PayloadNames(payload, r.loan) ==>
                  Incr(req.scopes[0]) in CreateCommands(r.tenant, payload, id, true))
  {
    var req := ActivityRequest(digest, r);
    var items := h.CoreList(End(h), req);
    var loaded := Then(h, Load(req));
    var commands := CreateCommands(r.tenant, payload, id, true);
    var created := loaded.(trace := loaded.trace + commands);
    AppendCommand(h, Load(req));
    PlainCreate(r.tenant, payload, id);
    AppendPlain(loaded, commands);
    PastIsFixed(h, created, End(h));
    assert created.trace[End(h)] == loaded.trace[End(h)] == Load(req);
    SetThenGet(created, req, End(h), ACTIVITY_TTL, items);
    var asked := AfterGet(AfterSet(created, req, End(h), ACTIVITY_TTL, items), req);
    CommitIsListed(h, created, asked, req, id);
    if TrimSpace(r.tenant) != "" && TrimSpace(r.loan) != "" && PayloadNames(payload, r.loan) {
      ScopesOfList(digest, r, r.tenant);
      PayloadBumpsLoan(r.tenant, r.loan, payload);
    }
  }

  lemma CommitIsListed(h: History, created: History, asked: History, req: Request, id: nat)
    requires h.listed(id, req) && Commit(id) !in h.trace && Extends(h, created) && Extends(created, asked)
    requires Commit(id) in created.trace
    ensures id !in h.CoreList(End(h), req) && id in asked.CoreList(End(asked), req)
  {
    CoreListHas(h, End(h), req, id);
    CoreListHas(asked, End(asked), req, id);
    assert h.trace[..End(h)] == h.trace && asked.trace[..End(asked)] == asked.trace;
    var n :| 0 <= n < End(created) && created.trace[n] == Commit(id);
    assert asked.trace[..End(created)] == created.trace;
    assert asked.trace[n] == asked.trace[..End(created)][n] == Commit(id);
  }

  // ----- when an expiring counter serves one -----

  lemma ListScopes(digest: string -> string, r: A.ListRequest)
    ensures var scopes := ActivityRequest(digest, r).scopes; |scopes| == 2 && OwnScopes(scopes)
  {
    if TrimSpace(r.loan) != "" {
      CountersApart(r.tenant, "loan", r.loan, r.tenant, "client", r.client);
      LoanIsNoClient();
    }
  }

  /** A list was just stored, with anyone's commands between its version reads and its write. A client that
      begins later can be served it after a bump of its loan (`j` is 0) or its client (`j` is 1) if and only
      if that counter has fallen below the version in the key or is due to expire within the entry's 25
      seconds, and the other counter is not above its version or is due as well. */
  lemma ListExpiryIsExact(h: History, digest: string -> string, r: A.ListRequest, j: nat)
    requires h.WellFormed() && AllDistinct(h.sep, h.Reqs()) && j < 2
    requires EndsWithWrite(h) && LastWrite(h).req == ActivityRequest(digest, r) && LastWrite(h).ttl == ACTIVITY_TTL
    ensures |LastWrite(h).req.scopes| == 2
    ensures CanServeStale(h, j) <==> CanReturnBumped(h, j) && CanReturn(h, 1 - j)
  {
    ListScopes(digest, r);
    ExpiryIsExact(h, j);
    assert CanReturnBumped(h, j) ==> CanReturn(h, j);
  }

  /** With nothing in between, exactly when that counter is alive and due to expire within 25 seconds. */
  lemma UndisturbedExpiryIsExact(h: History, digest: string -> string, r: A.ListRequest, load: nat, items: seq<nat>,
                                 j: nat)
    requires h.WellFormed() && j < 2 && WasLoaded(h, ActivityRequest(digest, r), load, items)
    requires var stored := AfterSet(h, ActivityRequest(digest, r), load, ACTIVITY_TTL, items);
             AllDistinct(stored.sep, stored.Reqs())
    ensures var stored := AfterSet(h, ActivityRequest(digest, r), load, ACTIVITY_TTL, items);
            var scope := ActivityRequest(digest, r).scopes[j];
            && EndsWithWrite(stored) && LastWrite(stored).req == ActivityRequest(digest, r)
            && (CanServeStale(stored, j) <==>
                && Alive(Now(h), scope) && Now(h).counters[scope].expires.Some?
                && Now(h).counters[scope].expires.value < Now(h).now + ACTIVITY_TTL)
  {
    var req := ActivityRequest(digest, r);
    StoredState(h, req, load, ACTIVITY_TTL, items);
    StoredVersions(h, req, load, items);
    ListExpiryIsExact(AfterSet(h, req, load, ACTIVITY_TTL, items), digest, r, j);
  }

  lemma StoredVersions(h: History, req: Request, load: nat, items: seq<nat>)
    requires h.WellFormed() && WasLoaded(h, req, load, items)
    ensures var stored := AfterSet(h, req, load, ACTIVITY_TTL, items);
            && EndsWithWrite(stored) && LastWrite(stored) == WriteOf(h, req, load, ACTIVITY_TTL, items)
            && ExpiryOf(stored) == Now(h).now + ACTIVITY_TTL
            && forall i :: 0 <= i < |req.scopes| ==>
                 VersionOf(Now(stored), req.scopes[i]) == LastWrite(stored).versions[i]
  {
    StoredState(h, req, load, ACTIVITY_TTL, items);
  }
}
