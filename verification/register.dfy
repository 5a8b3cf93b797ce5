/** The account registration of `api/register-account.js`: validation of the request,
    the merge of the stored record with the request, and the two store writes. The store
    is an input (whether it is configured and which writes succeed, and the records that
    can be read and parsed, by key); the handler's result is the response and the writes
    that took effect. */
module Register {
  import opened Wrappers
  import opened Text
  import opened Accounts

  /** The request body once parsed: a string that is not JSON, or the two properties the
      handler reads (an absent, empty or null body has neither). */
  datatype Body = Unparseable | Fields(accountName: Option<string>, accountCreated: Option<string>)

  /** The key-value store: not configured (every command answers null without failing), or
      configured, with whether SET and SADD succeed. */
  datatype KvStatus = NotConfigured | Configured(setSucceeds: bool, saddSucceeds: bool)

  datatype Write =
    | SetRecord(key: string, record: StoredAccount)
    | AddToIndex(indexKey: string, member: string)

  datatype Response =
    | MethodNotAllowed      // 405 { error: "Method not allowed" }
    | InvalidJson           // 400 { error: "Invalid JSON body" }
    | MissingName           // 400 { error: "Missing accountName" }
    | Registered(stored: bool)  // 200 { ok: true, stored }

  datatype Outcome = Outcome(response: Response, writes: seq<Write>)

  const IndexKey := "accounts:index"

  /** `existing?.visitsCount ? Number(existing.visitsCount) : 0`. */
  function PreviousVisits(existing: Option<StoredAccount>): int {
    if existing.Some? && existing.value.visitsCount.Some? && existing.value.visitsCount.value != 0
    then existing.value.visitsCount.value else 0
  }

  /** The record written for `name`: one more visit, first-seen kept, the stored creation
      date before the requested one before "", last-seen now. */
  function Merge(name: string, requestCreated: Option<string>, existing: Option<StoredAccount>, now: string): (d: StoredAccount)
    ensures d.accountName == Some(name) && d.lastSeenAt == Some(now)
    ensures d.visitsCount == Some(PreviousVisits(existing) + 1)
  {
    var firstSeenAt := if existing.Some? then OrElse(existing.value.firstSeenAt, now) else now;
    var created := OrElse(if existing.Some? then existing.value.accountCreated else None,
                          OrElse(requestCreated, ""));
    StoredAccount(Some(name), Some(created), Some(firstSeenAt), Some(now), Some(PreviousVisits(existing) + 1))
  }

  /** The registration handler for a request with method `httpMethod` and body `body` at
      the instant whose ISO text is `now`. */
  function Handle(httpMethod: string, body: Body, kv: KvStatus, records: map<string, StoredAccount>, now: string): (o: Outcome)
    ensures httpMethod != "POST" ==> o == Outcome(Response.MethodNotAllowed, [])
    ensures httpMethod == "POST" && body.Unparseable? ==> o == Outcome(InvalidJson, [])
    ensures (httpMethod == "POST" && body.Fields? && OrElse(body.accountName, "") == "")
              ==> o == Outcome(MissingName, [])
    ensures o.response.Registered? <==>
              httpMethod == "POST" && body.Fields? && OrElse(body.accountName, "") != ""
    ensures o.response.Registered? ==> o.response.stored == (kv.NotConfigured? || kv == Configured(true, true))
    ensures o.writes != [] ==> o.response.Registered? && kv.Configured? && kv.setSucceeds
    ensures kv == Configured(true, false) && o.response.Registered? ==>
              o.writes == [SetRecord(AccountKey(body.accountName.value),
                                     Merge(body.accountName.value, body.accountCreated, ReadRecord(records, body.accountName.value), now))]
  {
    if httpMethod != "POST" then Outcome(Response.MethodNotAllowed, [])
    else match body
      case Unparseable => Outcome(InvalidJson, [])
      case Fields(accountName, accountCreated) =>
        if OrElse(accountName, "") == "" then Outcome(MissingName, [])
        else
          var name := accountName.value;
          var key := AccountKey(name);
          var existing := if kv.Configured? then ReadRecord(records, name) else None;
          var record := Merge(name, accountCreated, existing, now);
          match kv
          case NotConfigured => Outcome(Registered(true), [])
          case Configured(setSucceeds, saddSucceeds) =>
            if !setSucceeds then Outcome(Registered(false), [])
            else if !saddSucceeds then Outcome(Registered(false), [SetRecord(key, record)])
            else Outcome(Registered(true), [SetRecord(key, record), AddToIndex(IndexKey, name)])
  }

  /** The store after the writes: the records and the set of index names. */
  function Apply(records: map<string, StoredAccount>, index: set<string>, writes: seq<Write>): (map<string, StoredAccount>, set<string>)
    decreases |writes|
  {
    if writes == [] then (records, index)
    else match writes[0]
      case SetRecord(key, record) => Apply(records[key := record], index, writes[1..])
      case AddToIndex(_, member) => Apply(records, index + {member}, writes[1..])
  }

  /** When SET succeeds and SADD fails, the merged record is stored under the account key
      but the index is left as it was, and the response says the record was not stored:
      a name not yet indexed stays out of the listing. */
  lemma StoredButNotIndexed(body: Body, records: map<string, StoredAccount>, index: set<string>, now: string)
    requires body.Fields? && OrElse(body.accountName, "") != ""
    ensures var name := body.accountName.value;
            var o := Handle("POST", body, Configured(true, false), records, now);
            var record := Merge(name, body.accountCreated, ReadRecord(records, name), now);
            && o.response == Registered(false)
            && Apply(records, index, o.writes) == (records[AccountKey(name) := record], index)
  {
    var name := body.accountName.value;
    var record := Merge(name, body.accountCreated, ReadRecord(records, name), now);
    var ws := [SetRecord(AccountKey(name), record)];
    assert Handle("POST", body, Configured(true, false), records, now).writes == ws;
    assert ws[1..] == [];
  }

  /** A successful registration writes the merged record under "account:" and the
      lower-cased name, and adds the name as given to the index. */
  lemma RegistrationWrites(body: Body, records: map<string, StoredAccount>, index: set<string>, now: string)
    requires body.Fields? && OrElse(body.accountName, "") != ""
    ensures var name := body.accountName.value;
            var o := Handle("POST", body, Configured(true, true), records, now);
            var record := Merge(name, body.accountCreated, ReadRecord(records, name), now);
            && o.writes == [SetRecord("account:" + AsciiLower(name), record), AddToIndex("accounts:index", name)]
            && Apply(records, index, o.writes) == (records[AccountKey(name) := record], index + {name})
  {
    var name := body.accountName.value;
    var record := Merge(name, body.accountCreated, ReadRecord(records, name), now);
    var ws := [SetRecord(AccountKey(name), record), AddToIndex(IndexKey, name)];
    assert Handle("POST", body, Configured(true, true), records, now).writes == ws;
    assert ws[1..] == [AddToIndex(IndexKey, name)];
    assert ws[1..][1..] == [];
    calc {
      Apply(records, index, ws);
      Apply(records[AccountKey(name) := record], index, ws[1..]);
      Apply(records[AccountKey(name) := record], index + {name}, ws[1..][1..]);
    }
  }

  /** The visit count grows by one on each registration; a stored creation date is never
      replaced by the request's, and a missing one is taken from the request, else ""; a
      stored first-seen date is kept, and a missing one becomes now. */
  lemma MergeKeepsHistory(name: string, requestCreated: Option<string>, existing: StoredAccount, now: string)
    ensures var d := Merge(name, requestCreated, Some(existing), now);
            && (existing.visitsCount.Some? ==> d.visitsCount == Some(existing.visitsCount.value + 1))
            && (OrElse(existing.accountCreated, "") != "" ==> d.accountCreated == existing.accountCreated)
            && (OrElse(existing.firstSeenAt, "") != "" ==> d.firstSeenAt == existing.firstSeenAt)
            && (OrElse(existing.accountCreated, "") == "" ==> d.accountCreated == Some(OrElse(requestCreated, "")))
            && (OrElse(existing.firstSeenAt, "") == "" ==> d.firstSeenAt == Some(now))
  {
  }

  /** A first registration: one visit, first-seen and last-seen now, and the requested
      creation date or "". */
  lemma MergeFirstVisit(name: string, requestCreated: Option<string>, now: string)
    ensures Merge(name, requestCreated, None, now)
            == StoredAccount(Some(name), Some(OrElse(requestCreated, "")), Some(now), Some(now), Some(1))
  {
  }

  /** Registering and then listing: every index entry with the registered name shows the
      merged record, a creation date of "" listed as null. */
  lemma RegisterThenList(body: Body, records: map<string, StoredAccount>, index: set<string>,
                         now: string, names: seq<string>, i: nat)
    requires body.Fields? && OrElse(body.accountName, "") != ""
    requires 0 <= i < |names| && names[i] == body.accountName.value
    ensures var name := body.accountName.value;
            var o := Handle("POST", body, Configured(true, true), records, now);
            var (records', index') := Apply(records, index, o.writes);
            var d := Merge(name, body.accountCreated, ReadRecord(records, name), now);
            var r := ListAccounts("GET", None, IndexNames(Some(names)), records');
            && name in index'
            && r.JsonList?
            && r.accounts[i] == Account(name, OrNull(d.accountCreated), OrNull(d.firstSeenAt), OrNull(Some(now)),
                                        PreviousVisits(ReadRecord(records, name)) + 1)
  {
    var name := body.accountName.value;
    RegistrationWrites(body, records, index, now);
    var d := Merge(name, body.accountCreated, ReadRecord(records, name), now);
    var records' := records[AccountKey(name) := d];
    assert ReadRecord(records', name) == Some(d);
    FormatSelection(None);
  }

  /** Names that differ only in letter case share one record: after registering "Foo"
      and then "foo", the index holds both and both list the second registration's
      name. */
  lemma CaseVariantsShareRecord(records: map<string, StoredAccount>, index: set<string>, now1: string, now2: string)
    ensures var (records1, index1) := Apply(records, index, Handle("POST", Fields(Some("Foo"), None), Configured(true, true), records, now1).writes);
            var (records2, index2) := Apply(records1, index1, Handle("POST", Fields(Some("foo"), None), Configured(true, true), records1, now2).writes);
            var r := ListAccounts("GET", None, IndexNames(Some(["Foo", "foo"])), records2);
            && {"Foo", "foo"} <= index2
            && r.JsonList? && r.accounts[0].accountName == "foo" && r.accounts[1].accountName == "foo"
            && r.accounts[1].visitsCount == PreviousVisits(ReadRecord(records, "Foo")) + 2
  {
    assert AsciiLower("Foo") == "foo" by {
      assert LowerChar('F') == 'f';
    }
    assert AsciiLower("foo") == "foo";
    RegistrationWrites(Fields(Some("Foo"), None), records, index, now1);
    var d1 := Merge("Foo", None, ReadRecord(records, "Foo"), now1);
    var records1 := records[AccountKey("Foo") := d1];
    RegistrationWrites(Fields(Some("foo"), None), records1, index + {"Foo"}, now2);
    assert ReadRecord(records1, "foo") == Some(d1);
    FormatSelection(None);
  }
}
