/** The account listing of `api/accounts.js`: the index of names, each stored record
    with its fields defaulted, and the answer as a JSON list or as a CSV document whose
    fields are quoted the RFC 4180 way (section 2, rules 5 to 7), except that line breaks
    inside a field become a space and records are separated by a bare line feed.
    The key-value store is an input: the result of reading the index, and the records
    that could be read and parsed, by key. */
module Accounts {
  import opened Wrappers
  import opened Text

  // ---------------------------------------------------------------------------------------
  // Records

  /** A stored account record as parsed from the store; an absent property is None. */
  datatype StoredAccount = StoredAccount(
    accountName: Option<string>,
    accountCreated: Option<string>,
    firstSeenAt: Option<string>,
    lastSeenAt: Option<string>,
    visitsCount: Option<int>)

  /** A listed account; None is JSON null. */
  datatype Account = Account(
    accountName: string,
    accountCreated: Option<string>,
    firstSeenAt: Option<string>,
    lastSeenAt: Option<string>,
    visitsCount: int)

  /** The store key of an account record: "account:" and the lower-cased name. */
  function AccountKey(name: string): (k: string)
    ensures |k| == 8 + |name| && k[..8] == "account:"
    ensures k[8..] == AsciiLower(name)
  {
    "account:" + AsciiLower(name)
  }

  /** `x || fallback` on an optional string. */
  function OrElse(x: Option<string>, fallback: string): string {
    if x.Some? && x.value != "" then x.value else fallback
  }

  /** `x || null` on an optional string. */
  function OrNull(x: Option<string>): (r: Option<string>)
    ensures r.Some? ==> r.value != ""
    ensures x.Some? && x.value != "" ==> r == x
    ensures x.None? || x.value == "" ==> r.None?
  {
    if x.Some? && x.value != "" then x else None
  }

  /** The per-account defaulting of the listing, for index name `name` and the record read
      under its key (None when there is none, or it could not be read or parsed). */
  function DefaultAccount(name: string, data: Option<StoredAccount>): (a: Account)
    ensures data.None? ==> a == Account(name, None, None, None, 0)
    ensures data.Some? ==> a.accountName == OrElse(data.value.accountName, name)
    ensures data.Some? ==> a.accountCreated == OrNull(data.value.accountCreated)
    ensures data.Some? ==> a.firstSeenAt == OrNull(data.value.firstSeenAt)
    ensures data.Some? ==> a.lastSeenAt == OrNull(data.value.lastSeenAt)
    ensures data.Some? ==> a.visitsCount == data.value.visitsCount.GetOr(0)
  {
    match data
    case None => Account(name, None, None, None, 0)
    case Some(d) =>
      Account(OrElse(d.accountName, name), OrNull(d.accountCreated), OrNull(d.firstSeenAt),
              OrNull(d.lastSeenAt), if d.visitsCount.Some? && d.visitsCount.value != 0 then d.visitsCount.value else 0)
  }

  /** The record stored under a name's key, if any. */
  function ReadRecord(records: map<string, StoredAccount>, name: string): Option<StoredAccount> {
    if AccountKey(name) in records then Some(records[AccountKey(name)]) else None
  }

  /** `names.map(...)`: one defaulted account per index name, in index order. */
  function CollectAccounts(names: seq<string>, records: map<string, StoredAccount>): (r: seq<Account>)
    ensures |r| == |names|
    ensures forall i :: 0 <= i < |names| ==> r[i] == DefaultAccount(names[i], ReadRecord(records, names[i]))
  {
    seq(|names|, i requires 0 <= i < |names| => DefaultAccount(names[i], ReadRecord(records, names[i])))
  }

  /** Every listed name is non-empty when the index names are: a record never blanks it. */
  lemma ListedNamesNonEmpty(names: seq<string>, records: map<string, StoredAccount>)
    requires forall i :: 0 <= i < |names| ==> names[i] != ""
    ensures forall a :: a in CollectAccounts(names, records) ==> a.accountName != ""
  {
    var r := CollectAccounts(names, records);
    forall a | a in r ensures a.accountName != "" {
      var i :| 0 <= i < |r| && r[i] == a;
      assert r[i] == DefaultAccount(names[i], ReadRecord(records, names[i]));
    }
  }

  // ---------------------------------------------------------------------------------------
  // Format selection

  /** `(req.query?.format || "json").toString().toLowerCase()`. */
  function Format(query: Option<string>): string {
    AsciiLower(OrElse(query, "json"))
  }

  /** Only a format that lower-cases to "csv" gives CSV; no format, an empty one or any
      other one gives JSON. */
  lemma FormatSelection(query: Option<string>)
    ensures Format(query) == "csv" <==> query.Some? && AsciiLower(query.value) == "csv"
    ensures query.None? || query.value == "" ==> Format(query) == "json"
  {
    if query.None? || query.value == "" {
      assert Format(query) == AsciiLower("json");
      assert AsciiLower("json") == "json";
    }
  }

  // ---------------------------------------------------------------------------------------
  // CSV fields

  /** `.replace(/"/g, '""')`. */
  function DoubleQuotes(s: string): (r: string)
    ensures |r| >= |s|
  {
    if s == [] then []
    else if s[0] == '"' then "\"\"" + DoubleQuotes(s[1..])
    else [s[0]] + DoubleQuotes(s[1..])
  }

  /** Doubling adds one character for each quote and leaves every other character alone. */
  lemma {:induction false} DoubleQuotesLength(s: string)
    ensures |DoubleQuotes(s)| == |s| + multiset(s)['"']
    ensures '"' !in s ==> DoubleQuotes(s) == s
    decreases |s|
  {
    if s != [] {
      DoubleQuotesLength(s[1..]);
      assert s == [s[0]] + s[1..];
    }
  }

  /** `.replace(/\r?\n/g, " ")`: each line feed, with the carriage return right before it
      if there is one, becomes one space; a lone carriage return stays. */
  function ReplaceNewlines(s: string): (r: string)
    ensures '\n' !in r
  {
    if s == [] then []
    else if |s| >= 2 && s[0] == '\r' && s[1] == '\n' then " " + ReplaceNewlines(s[2..])
    else if s[0] == '\n' then " " + ReplaceNewlines(s[1..])
    else [s[0]] + ReplaceNewlines(s[1..])
  }

  /** The quoted CSV field for a value that `String(v ?? "")` turned into `s`. */
  function Field(s: string): string {
    "\"" + ReplaceNewlines(DoubleQuotes(s)) + "\""
  }

  /** The two replacements can be made in either order. */
  lemma {:induction false} ReplacementsCommute(s: string)
    ensures ReplaceNewlines(DoubleQuotes(s)) == DoubleQuotes(ReplaceNewlines(s))
    decreases |s|
  {
    if s == [] {
    } else if |s| >= 2 && s[0] == '\r' && s[1] == '\n' {
      ReplacementsCommute(s[2..]);
      CommuteAfterBreak("\r\n", s[2..]);
      assert s == "\r\n" + s[2..];
    } else if s[0] == '\n' {
      ReplacementsCommute(s[1..]);
      CommuteAfterBreak("\n", s[1..]);
      assert s == "\n" + s[1..];
    } else if s[0] == '"' {
      ReplacementsCommute(s[1..]);
      CommuteAfterQuote(s[1..]);
      assert s == ['"'] + s[1..];
    } else {
      ReplacementsCommute(s[1..]);
      CommuteAfterPlain(s[0], s[1..]);
      assert s == [s[0]] + s[1..];
    }
  }

  lemma CommuteAfterBreak(lb: string, x: string)
    requires lb == "\r\n" || lb == "\n"
    requires ReplaceNewlines(DoubleQuotes(x)) == DoubleQuotes(ReplaceNewlines(x))
    ensures ReplaceNewlines(DoubleQuotes(lb + x)) == DoubleQuotes(ReplaceNewlines(lb + x))
  {
    DoubleQuotesAppend(lb, x);
    DoubleQuotesAppend(" ", ReplaceNewlines(x));
    assert DoubleQuotes(lb) == lb;
    var y := DoubleQuotes(x);
    if lb == "\r\n" {
      assert (lb + y)[2..] == y && (lb + x)[2..] == x;
    } else {
      assert (lb + y)[1..] == y && (lb + x)[1..] == x;
    }
  }

  lemma CommuteAfterQuote(x: string)
    requires ReplaceNewlines(DoubleQuotes(x)) == DoubleQuotes(ReplaceNewlines(x))
    ensures ReplaceNewlines(DoubleQuotes(['"'] + x)) == DoubleQuotes(ReplaceNewlines(['"'] + x))
  {
    QuoteThenReplace(x);
    ReplaceThenQuote(x);
  }

  lemma QuoteThenReplace(x: string)
    ensures ReplaceNewlines(DoubleQuotes(['"'] + x)) == ['"', '"'] + ReplaceNewlines(DoubleQuotes(x))
  {
    DoubleQuotesCons('"', x);
    ReplaceNewlinesQuotes(DoubleQuotes(x));
  }

  lemma DoubleQuotesCons(c: char, x: string)
    ensures DoubleQuotes([c] + x) == (if c == '"' then ['"', '"'] else [c]) + DoubleQuotes(x)
  {
    assert ([c] + x)[1..] == x;
  }

  lemma ReplaceNewlinesQuotes(y: string)
    ensures ReplaceNewlines(['"', '"'] + y) == ['"', '"'] + ReplaceNewlines(y)
  {
    var t := ['"'] + y;
    assert ['"', '"'] + y == ['"'] + t;
    ReplaceNewlinesCons('"', t);
    ReplaceNewlinesCons('"', y);
  }

  lemma ReplaceThenQuote(x: string)
    ensures DoubleQuotes(ReplaceNewlines(['"'] + x)) == ['"', '"'] + DoubleQuotes(ReplaceNewlines(x))
  {
    ReplaceNewlinesCons('"', x);
    assert (['"'] + ReplaceNewlines(x))[1..] == ReplaceNewlines(x);
  }

  lemma CommuteAfterPlain(c: char, x: string)
    requires c != '"' && c != '\n' && !(c == '\r' && x != [] && x[0] == '\n')
    requires ReplaceNewlines(DoubleQuotes(x)) == DoubleQuotes(ReplaceNewlines(x))
    ensures ReplaceNewlines(DoubleQuotes([c] + x)) == DoubleQuotes(ReplaceNewlines([c] + x))
  {
    assert ([c] + x)[1..] == x;
    if x != [] {
      DoubleQuotesHead(x);
    }
    ReplaceNewlinesCons(c, DoubleQuotes(x));
    ReplaceNewlinesCons(c, x);
    assert ([c] + ReplaceNewlines(x))[1..] == ReplaceNewlines(x);
  }

  lemma {:induction false} DoubleQuotesAppend(a: string, b: string)
    ensures DoubleQuotes(a + b) == DoubleQuotes(a) + DoubleQuotes(b)
    decreases |a|
  {
    if a != [] {
      assert (a + b)[1..] == a[1..] + b;
      DoubleQuotesAppend(a[1..], b);
    } else {
      assert a + b == b;
    }
  }

  /** Doubling quotes keeps the first character unless it is a quote. */
  lemma DoubleQuotesHead(x: string)
    requires x != []
    ensures DoubleQuotes(x) != [] && DoubleQuotes(x)[0] == x[0]
  {
  }

  /** A character that does not start a line break passes through unchanged. */
  lemma ReplaceNewlinesCons(c: char, y: string)
    requires c != '\n' && !(c == '\r' && y != [] && y[0] == '\n')
    ensures ReplaceNewlines([c] + y) == [c] + ReplaceNewlines(y)
  {
    assert ([c] + y)[1..] == y;
  }

  /** A value without line breaks is left alone by the newline replacement. */
  lemma {:induction false} ReplaceNewlinesIdentity(s: string)
    requires '\n' !in s
    ensures ReplaceNewlines(s) == s
  {
    if s != [] {
      assert '\n' !in s[1..] by {
        assert forall i :: 0 <= i < |s[1..]| ==> s[1..][i] == s[i + 1];
      }
      ReplaceNewlinesIdentity(s[1..]);
    }
  }

  /** A carriage return with its line feed at the front is one space. */
  lemma ReplaceNewlinesPair(s: string)
    requires |s| >= 2 && s[0] == '\r' && s[1] == '\n'
    ensures ReplaceNewlines(s) == " " + ReplaceNewlines(s[2..])
  {
  }

  /** Any other first character is replaced on its own: a line feed by a space, anything
      else by itself. */
  lemma ReplaceNewlinesSingle(s: string)
    requires s != [] && !(|s| >= 2 && s[0] == '\r' && s[1] == '\n')
    ensures ReplaceNewlines(s) == (if s[0] == '\n' then " " else [s[0]]) + ReplaceNewlines(s[1..])
  {
  }

  /** Concatenation is associative. */
  lemma ConcatAssoc(x: string, y: string, z: string)
    ensures x + (y + z) == (x + y) + z
  {
  }

  /** The front of `a + t` is the front of `a`, and past it the rest of `a` comes first. */
  lemma ConcatFront(a: string, t: string, k: nat)
    requires 0 < k <= |a| && k <= 2
    ensures (a + t)[0] == a[0] && (k == 2 ==> (a + t)[1] == a[1])
    ensures (a + t)[k..] == a[k..] + t
  {
  }

  /** The replacement works piece by piece: text that does not end in a carriage return
      cannot pair with what follows it. */
  lemma {:induction false} ReplaceNewlinesAppend(a: string, t: string)
    requires a == [] || a[|a| - 1] != '\r'
    ensures ReplaceNewlines(a + t) == ReplaceNewlines(a) + ReplaceNewlines(t)
    decreases |a|
  {
    if a == [] {
      assert a + t == t;
    } else if |a| >= 2 && a[0] == '\r' && a[1] == '\n' {
      ReplaceNewlinesAppend(a[2..], t);
      AppendAfterPair(a, t);
    } else {
      ReplaceNewlinesAppend(a[1..], t);
      AppendAfterSingle(a, t);
    }
  }

  /** The step of `ReplaceNewlinesAppend` past a leading carriage return and line feed. */
  lemma AppendAfterPair(a: string, t: string)
    requires |a| >= 2 && a[0] == '\r' && a[1] == '\n'
    requires ReplaceNewlines(a[2..] + t) == ReplaceNewlines(a[2..]) + ReplaceNewlines(t)
    ensures ReplaceNewlines(a + t) == ReplaceNewlines(a) + ReplaceNewlines(t)
  {
    var at := a + t;
    ConcatFront(a, t, 2);
    ReplaceNewlinesPair(at);
    ReplaceNewlinesPair(a);
    ConcatAssoc(" ", ReplaceNewlines(a[2..]), ReplaceNewlines(t));
  }

  /** The step of `ReplaceNewlinesAppend` past any other leading character. */
  lemma AppendAfterSingle(a: string, t: string)
    requires a != [] && !(|a| >= 2 && a[0] == '\r' && a[1] == '\n')
    requires |a| == 1 ==> a[0] != '\r'
    requires ReplaceNewlines(a[1..] + t) == ReplaceNewlines(a[1..]) + ReplaceNewlines(t)
    ensures ReplaceNewlines(a + t) == ReplaceNewlines(a) + ReplaceNewlines(t)
  {
    var at := a + t;
    ConcatFront(a, t, if |a| >= 2 then 2 else 1);
    ConcatFront(a, t, 1);
    ReplaceNewlinesSingle(at);
    ReplaceNewlinesSingle(a);
    ConcatAssoc(if a[0] == '\n' then " " else [a[0]], ReplaceNewlines(a[1..]), ReplaceNewlines(t));
  }

  /** `.replace(/\r?\n/g, " ")`: a line feed, or a carriage return with the line feed after
      it, becomes one space, and the text on either side is replaced on its own. */
  lemma ReplaceLineBreak(a: string, b: string)
    requires a == [] || a[|a| - 1] != '\r'
    ensures ReplaceNewlines(a + "\n" + b) == ReplaceNewlines(a) + " " + ReplaceNewlines(b)
    ensures ReplaceNewlines(a + "\r\n" + b) == ReplaceNewlines(a) + " " + ReplaceNewlines(b)
  {
    var lf, crlf := "\n" + b, "\r\n" + b;
    ConcatAssoc(a, "\n", b);
    ConcatAssoc(a, "\r\n", b);
    ReplaceNewlinesAppend(a, lf);
    ReplaceNewlinesAppend(a, crlf);
    assert lf[1..] == b;
    ReplaceNewlinesSingle(lf);
    assert crlf[2..] == b;
    ReplaceNewlinesPair(crlf);
    ConcatAssoc(ReplaceNewlines(a), " ", ReplaceNewlines(b));
  }

  /** A carriage return not followed by a line feed is kept. */
  lemma LoneCarriageReturnKept(a: string, b: string)
    requires a == [] || a[|a| - 1] != '\r'
    requires b == [] || b[0] != '\n'
    ensures ReplaceNewlines(a + "\r" + b) == ReplaceNewlines(a) + "\r" + ReplaceNewlines(b)
  {
    var t := "\r" + b;
    ConcatAssoc(a, "\r", b);
    ReplaceNewlinesAppend(a, t);
    assert t[1..] == b;
    ReplaceNewlinesSingle(t);
    ConcatAssoc(ReplaceNewlines(a), "\r", ReplaceNewlines(b));
  }

  /** Reads the body of a quoted field, just after its opening quote: a doubled quote is
      one quote, and a single quote closes the field. Gives the value and what follows
      the closing quote. */
  function ReadQuoted(s: string): (r: Option<(string, string)>)
    ensures r.Some? ==> |r.value.1| < |s|
  {
    if s == [] then None
    else if s[0] == '"' then
      if |s| >= 2 && s[1] == '"' then
        match ReadQuoted(s[2..])
        case None => None
        case Some((v, rest)) => Some(("\"" + v, rest))
      else Some(([], s[1..]))
    else
      match ReadQuoted(s[1..])
      case None => None
      case Some((v, rest)) => Some(([s[0]] + v, rest))
  }

  /** Un-doubling recovers a value whose quotes were doubled, up to the closing quote. */
  lemma {:induction false} ReadQuotedDoubled(t: string, rest: string)
    requires rest == [] || rest[0] != '"'
    ensures ReadQuoted(DoubleQuotes(t) + "\"" + rest) == Some((t, rest))
    decreases |t|
  {
    var s := DoubleQuotes(t) + "\"" + rest;
    if t == [] {
      assert s == "\"" + rest;
      assert s[1..] == rest;
    } else if t[0] == '"' {
      assert s == "\"\"" + (DoubleQuotes(t[1..]) + "\"" + rest);
      assert s[2..] == DoubleQuotes(t[1..]) + "\"" + rest;
      ReadQuotedDoubled(t[1..], rest);
      assert "\"" + t[1..] == t;
    } else {
      assert s == [t[0]] + (DoubleQuotes(t[1..]) + "\"" + rest);
      assert s[1..] == DoubleQuotes(t[1..]) + "\"" + rest;
      ReadQuotedDoubled(t[1..], rest);
      assert [t[0]] + t[1..] == t;
    }
  }

  /** Reading one escaped field gives the value with its line breaks replaced. */
  lemma ReadField(s: string, rest: string)
    requires rest == [] || rest[0] != '"'
    ensures Field(s) + rest == "\"" + (DoubleQuotes(ReplaceNewlines(s)) + "\"" + rest)
    ensures ReadQuoted(DoubleQuotes(ReplaceNewlines(s)) + "\"" + rest) == Some((ReplaceNewlines(s), rest))
  {
    ReplacementsCommute(s);
    ReadQuotedDoubled(ReplaceNewlines(s), rest);
  }

  // ---------------------------------------------------------------------------------------
  // CSV rows and document

  /** `vals.join(",")` over the quoted fields. */
  function JoinFields(vs: seq<string>): string {
    if vs == [] then []
    else if |vs| == 1 then Field(vs[0])
    else Field(vs[0]) + "," + JoinFields(vs[1..])
  }

  /** The five values of a row, as `String(v ?? "")` gives them. */
  function RowValues(a: Account): seq<string> {
    [a.accountName, a.accountCreated.GetOr(""), a.firstSeenAt.GetOr(""), a.lastSeenAt.GetOr(""),
     IntToString(a.visitsCount)]
  }

  function Row(a: Account): string {
    JoinFields(RowValues(a))
  }

  /** `lines.join("\n")`. */
  function JoinLines(ls: seq<string>): string {
    if ls == [] then []
    else if |ls| == 1 then ls[0]
    else ls[0] + "\n" + JoinLines(ls[1..])
  }

  const HeaderLine := "accountName," + "accountCreated," + "firstSeenAt," + "lastSeenAt," + "visitsCount"

  /** `header + rows`: the header line, a line feed and the rows joined by line feeds. */
  function CsvDocument(accounts: seq<Account>): string {
    HeaderLine + "\n" + JoinLines(seq(|accounts|, i requires 0 <= i < |accounts| => Row(accounts[i])))
  }

  /** Parses a row of quoted fields separated by commas. */
  function ParseRow(s: string): (r: Option<seq<string>>)
    decreases |s|
  {
    if s == [] || s[0] != '"' then None
    else
      match ReadQuoted(s[1..])
      case None => None
      case Some((v, rest)) =>
        if rest == [] then Some([v])
        else if rest[0] != ',' then None
        else
          match ParseRow(rest[1..])
          case None => None
          case Some(vs) => Some([v] + vs)
  }

  /** The values of a row with the line breaks of each replaced. */
  function ReplaceAll(vs: seq<string>): (r: seq<string>)
    ensures |r| == |vs|
    ensures forall i :: 0 <= i < |vs| ==> r[i] == ReplaceNewlines(vs[i])
  {
    if vs == [] then [] else [ReplaceNewlines(vs[0])] + ReplaceAll(vs[1..])
  }

  /** Parsing a field followed by nothing or by a comma and more. */
  lemma ParseFieldThen(v: string, rest: string)
    requires rest == [] || rest[0] == ','
    ensures ParseRow(Field(v) + rest)
            == if rest == [] then Some([ReplaceNewlines(v)])
               else match ParseRow(rest[1..])
                    case None => None
                    case Some(vs) => Some([ReplaceNewlines(v)] + vs)
  {
    ReadField(v, rest);
    var s := Field(v) + rest;
    assert s[0] == '"';
    assert s[1..] == DoubleQuotes(ReplaceNewlines(v)) + "\"" + rest;
  }

  /** A joined row of at least one field parses back into its values, line breaks
      replaced. */
  lemma {:induction false} ParseJoinedFields(vs: seq<string>)
    requires |vs| >= 1
    ensures ParseRow(JoinFields(vs)) == Some(ReplaceAll(vs))
    decreases |vs|
  {
    if |vs| == 1 {
      ParseFieldThen(vs[0], []);
      assert JoinFields(vs) == Field(vs[0]) + [];
      assert ParseRow(JoinFields(vs)) == Some([ReplaceNewlines(vs[0])]);
      assert ReplaceAll(vs) == [ReplaceNewlines(vs[0])];
    } else {
      var tail := JoinFields(vs[1..]);
      ParseFieldThen(vs[0], "," + tail);
      assert JoinFields(vs) == Field(vs[0]) + ("," + tail);
      assert ("," + tail)[1..] == tail;
      ParseJoinedFields(vs[1..]);
    }
  }

  /** A row has exactly five fields and reads back as the account's values, line breaks
      replaced. */
  lemma RowRoundTrip(a: Account)
    ensures ParseRow(Row(a)) == Some(ReplaceAll(RowValues(a)))
  {
    ParseJoinedFields(RowValues(a));
  }

  /** A row whose values hold no line feed reads back as exactly those values. */
  lemma RowRoundTripExact(a: Account)
    requires forall i :: 0 <= i < |RowValues(a)| ==> '\n' !in RowValues(a)[i]
    ensures ParseRow(Row(a)) == Some(RowValues(a))
  {
    RowRoundTrip(a);
    var vs := RowValues(a);
    forall i | 0 <= i < |vs|
      ensures ReplaceAll(vs)[i] == vs[i]
    {
      ReplaceNewlinesIdentity(vs[i]);
    }
    assert ReplaceAll(vs) == vs;
  }

  /** A field never holds a line feed, so neither does a row. */
  lemma {:induction false} JoinFieldsNoNewline(vs: seq<string>)
    ensures '\n' !in JoinFields(vs)
    decreases |vs|
  {
    if vs != [] {
      var f := Field(vs[0]);
      assert '\n' !in ReplaceNewlines(DoubleQuotes(vs[0]));
      assert '\n' !in f;
      if |vs| > 1 {
        JoinFieldsNoNewline(vs[1..]);
        assert '\n' !in f + "," + JoinFields(vs[1..]);
      }
    }
  }

  /** `s.split("\n")`. */
  function SplitLines(s: string): (r: seq<string>)
    ensures |r| >= 1
  {
    if s == [] then [[]]
    else
      var rest := SplitLines(s[1..]);
      if s[0] == '\n' then [[]] + rest
      else [[s[0]] + rest[0]] + rest[1..]
  }

  lemma {:induction false} SplitLineWithoutBreak(l: string, rest: string)
    requires '\n' !in l
    ensures SplitLines(l + "\n" + rest) == [l] + SplitLines(rest)
    ensures SplitLines(l) == [l]
    decreases |l|
  {
    if l == [] {
      assert l + "\n" + rest == "\n" + rest;
      assert ("\n" + rest)[1..] == rest;
    } else {
      assert '\n' !in l[1..] by {
        assert forall i :: 0 <= i < |l[1..]| ==> l[1..][i] == l[i + 1];
      }
      SplitLineWithoutBreak(l[1..], rest);
      assert (l + "\n" + rest)[1..] == l[1..] + "\n" + rest;
      assert [l[0]] + l[1..] == l;
    }
  }

  /** Splitting lines joined with line feeds gives them back when none holds one. */
  lemma {:induction false} SplitJoinedLines(ls: seq<string>)
    requires |ls| >= 1
    requires forall i :: 0 <= i < |ls| ==> '\n' !in ls[i]
    ensures SplitLines(JoinLines(ls)) == ls
    decreases |ls|
  {
    if |ls| == 1 {
      SplitLineWithoutBreak(ls[0], []);
    } else {
      SplitLineWithoutBreak(ls[0], JoinLines(ls[1..]));
      SplitJoinedLines(ls[1..]);
      assert ls == [ls[0]] + ls[1..];
    }
  }

  /** The CSV document is the header line and then exactly one line per account, in
      order, and each line reads back as that account's five values. */
  lemma CsvRoundTrip(accounts: seq<Account>)
    requires |accounts| >= 1
    ensures var lines := SplitLines(CsvDocument(accounts));
            && |lines| == |accounts| + 1
            && lines[0] == HeaderLine
            && (forall i :: 0 <= i < |accounts| ==> lines[i + 1] == Row(accounts[i]))
            && (forall i :: 0 <= i < |accounts| ==>
                  ParseRow(lines[i + 1]) == Some(ReplaceAll(RowValues(accounts[i]))))
  {
    var rows := seq(|accounts|, i requires 0 <= i < |accounts| => Row(accounts[i]));
    forall i | 0 <= i < |rows| ensures '\n' !in rows[i] {
      JoinFieldsNoNewline(RowValues(accounts[i]));
    }
    assert '\n' !in "accountName," && '\n' !in "accountCreated," && '\n' !in "firstSeenAt,";
    assert '\n' !in "lastSeenAt," && '\n' !in "visitsCount";
    var ls := [HeaderLine] + rows;
    assert JoinLines(ls) == CsvDocument(accounts);
    SplitJoinedLines(ls);
    forall i | 0 <= i < |accounts|
      ensures ParseRow(rows[i]) == Some(ReplaceAll(RowValues(accounts[i])))
    {
      RowRoundTrip(accounts[i]);
    }
  }

  // ---------------------------------------------------------------------------------------
  // The handler

  /** The outcome of `smembers accounts:index`: the call failed (the handler answers 500),
      or its result, None when the store is not configured or the index does not exist. */
  datatype IndexRead = IndexFailed | IndexNames(names: Option<seq<string>>)

  datatype ListResponse =
    | MethodNotAllowed                 // 405 { error: "Method not allowed" }
    | ListFailed                       // 500 { error: "Failed to list accounts" }
    | JsonList(accounts: seq<Account>) // 200, JSON array
    | CsvFile(body: string)            // 200, text/csv attachment "accounts.csv"

  /** The accounts handler for a request with method `httpMethod` and `format` query, given
      the index read and the readable records. */
  function ListAccounts(httpMethod: string, format: Option<string>, index: IndexRead,
                        records: map<string, StoredAccount>): (r: ListResponse)
    ensures httpMethod != "GET" <==> r == MethodNotAllowed
    ensures httpMethod == "GET" && index == IndexFailed <==> r == ListFailed
    ensures (httpMethod == "GET" && index.IndexNames? && (index.names.None? || index.names.value == []))
            ==> r == JsonList([])
    ensures r.CsvFile? ==> Format(format) == "csv"
  {
    if httpMethod != "GET" then MethodNotAllowed
    else match index
      case IndexFailed => ListFailed
      case IndexNames(names) =>
        if names.None? || names.value == [] then JsonList([])
        else
          var accounts := CollectAccounts(names.value, records);
          if Format(format) == "csv" then CsvFile(CsvDocument(accounts)) else JsonList(accounts)
  }

  /** A non-empty index lists one account per name, in order, in the requested form. */
  lemma ListingFollowsIndex(format: Option<string>, names: seq<string>, records: map<string, StoredAccount>)
    requires names != []
    ensures var r := ListAccounts("GET", format, IndexNames(Some(names)), records);
            var accounts := CollectAccounts(names, records);
            && (Format(format) == "csv" ==> r == CsvFile(CsvDocument(accounts)))
            && (Format(format) != "csv" ==> r == JsonList(accounts))
  {
  }

  /** An empty index answers with an empty JSON list even when CSV was asked for. */
  lemma EmptyIndexIgnoresFormat(records: map<string, StoredAccount>)
    ensures ListAccounts("GET", Some("csv"), IndexNames(Some([])), records) == JsonList([])
    ensures ListAccounts("GET", Some("csv"), IndexNames(None), records) == JsonList([])
  {
  }
}
