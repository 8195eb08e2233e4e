/** Cursor paging over an account's ledger: opaque cursors, one row read too many to
    see whether there is more, and a client that follows cursors while new entries
    keep arriving. */
module LedgerPaging {
  import opened Options
  import opened IsoTime
  import B = Base64Url

  /** `id` is the row's generated id: ASCII, not empty. */
  datatype Entry = Entry(account: string, createdAt: Time, id: string, amount: int)

  datatype Cursor = Cursor(createdAt: Time, id: string)

  // ---------------------------------------------------------------- cursors

  predicate Plain(s: string) { forall i :: 0 <= i < |s| ==> s[i] as int < 128 }

  function ToBytes(s: string): seq<B.Byte> { seq(|s|, i requires 0 <= i < |s| => s[i] as int % 256) }

  function FromBytes(bs: seq<B.Byte>): string { seq(|bs|, i requires 0 <= i < |bs| => bs[i] as char) }

  function EncodeLedgerCursor(c: Cursor): string { B.Encode(ToBytes(ToIso(c.createdAt) + " " + c.id)) }

  function IndexOfSpace(s: string): int {
    if |s| == 0 then -1
    else if s[0] == ' ' then 0
    else var k := IndexOfSpace(s[1..]); if k < 0 then -1 else k + 1
  }

  /** `None` without a space, for a text before it that is no date, or an empty id. */
  function DecodeLedgerCursor(raw: string): Option<Cursor> {
    var decoded := FromBytes(B.Decode(raw));
    var sep := IndexOfSpace(decoded);
    if sep <= 0 || |decoded| <= sep then None
    else
      var createdAt := FromIso(decoded[..sep]);
      var id := decoded[sep + 1..];
      if createdAt.None? || createdAt.value < 0 || createdAt.value > LAST_TIME || |id| == 0 then None
      else Some(Cursor(createdAt.value, id))
  }

  lemma PlainBytes(s: string)
    requires Plain(s)
    ensures FromBytes(ToBytes(s)) == s
  {
  }

  lemma {:induction false} FirstSpace(a: string, b: string)
    requires ' ' !in a
    ensures IndexOfSpace(a + " " + b) == |a|
  {
    var s := a + " " + b;
    if |a| > 0 {
      assert s[1..] == a[1..] + " " + b;
      FirstSpace(a[1..], b);
    }
  }

  /** A cursor decodes to what was encoded. */
  lemma CursorRoundTrip(c: Cursor)
    requires Plain(c.id) && |c.id| > 0
    ensures DecodeLedgerCursor(EncodeLedgerCursor(c)) == Some(c)
  {
    hide ToIso, FromIso;
    var iso := ToIso(c.createdAt);
    IsoIsPlain(c.createdAt);
    IsoRoundTrip(c.createdAt);
    var s := iso + " " + c.id;
    PlainBytes(s);
    B.RoundTrip(ToBytes(s));
    FirstSpace(iso, c.id);
    assert s[..|iso|] == iso && s[|iso| + 1..] == c.id;
  }

  lemma {:induction false} SpaceFound(s: string)
    ensures var k := IndexOfSpace(s);
            -1 <= k < |s| && (k < 0 <==> ' ' !in s) && (k >= 0 ==> s[k] == ' ' && ' ' !in s[..k])
    decreases |s|
  {
    if |s| > 0 && s[0] != ' ' {
      SpaceFound(s[1..]);
      var k := IndexOfSpace(s[1..]);
      if k >= 0 { assert s[..k + 1] == [s[0]] + s[1..][..k]; }
    }
  }

  predicate Writes(decoded: string, iso: string, c: Cursor) {
    ' ' !in iso && FromIso(iso) == Some(c.createdAt) && |c.id| > 0 && decoded == iso + " " + c.id
  }

  /** The cursors a text stands for: one, or none when what it decodes to has no space,
      no time before the first one or nothing after it. */
  lemma CursorReads(raw: string, c: Cursor)
    ensures DecodeLedgerCursor(raw) == Some(c)
            <==> exists iso: string :: Writes(FromBytes(B.Decode(raw)), iso, c)
  {
    hide FromIso, FromBytes, IndexOfSpace, Writes;
    var decoded := FromBytes(B.Decode(raw));
    SpaceFound(decoded);
    if DecodeLedgerCursor(raw) == Some(c) {
      SplitWrites(decoded, IndexOfSpace(decoded), c);
    }
    if iso: string :| Writes(decoded, iso, c) { WrittenSplits(decoded, iso, c); }
  }

  lemma SplitWrites(decoded: string, sep: nat, c: Cursor)
    requires sep < |decoded| && decoded[sep] == ' ' && ' ' !in decoded[..sep] && |c.id| > 0
    requires FromIso(decoded[..sep]) == Some(c.createdAt) && decoded[sep + 1..] == c.id
    ensures Writes(decoded, decoded[..sep], c)
  {
    hide FromIso;
  }

  lemma WrittenSplits(decoded: string, iso: string, c: Cursor)
    requires Writes(decoded, iso, c)
    ensures var sep := IndexOfSpace(decoded);
            && 0 < sep < |decoded| && decoded[..sep] == iso && decoded[sep + 1..] == c.id
            && FromIso(iso) == Some(c.createdAt) && |c.id| > 0
  {
    hide FromIso, IndexOfSpace;
    FirstSpace(iso, c.id);
    EmptyIsNoTime();
  }

  lemma EmptyIsNoTime()
    ensures FromIso("").None?
  {
  }

  // ---------------------------------------------------------------- the index and one page

  predicate IdLess(a: string, b: string)
    decreases |a|
  {
    |b| > 0 && (|a| == 0 || a[0] < b[0] || (a[0] == b[0] && IdLess(a[1..], b[1..])))
  }

  /** The first differing character decides, else the shorter id comes first. */
  ghost predicate Differ(a: string, b: string, k: nat) {
    k <= |a| && k < |b| && a[..k] == b[..k] && (k == |a| || a[k] < b[k])
  }

  lemma {:induction false} IdLessIs(a: string, b: string)
    ensures IdLess(a, b) <==> exists k: nat :: Differ(a, b, k)
    decreases |a|
  {
    if |b| > 0 {
      if |a| == 0 || a[0] < b[0] {
        assert Differ(a, b, 0);
      } else {
        IdLessIs(a[1..], b[1..]);
        if IdLess(a, b) {
          var k: nat :| Differ(a[1..], b[1..], k);
          assert a[..k + 1] == [a[0]] + a[1..][..k] && b[..k + 1] == [b[0]] + b[1..][..k];
          assert Differ(a, b, k + 1);
        }
        if k: nat :| Differ(a, b, k) {
          assert k > 0 && a[0] == a[..k][0] == b[..k][0] == b[0];
          assert a[1..][..k - 1] == a[..k][1..] && b[1..][..k - 1] == b[..k][1..];
          assert Differ(a[1..], b[1..], k - 1);
        }
      }
    }
  }

  /** Strictly further down the list than the cursor. */
  predicate Older(e: Entry, c: Cursor) {
    e.createdAt < c.createdAt || (e.createdAt == c.createdAt && IdLess(e.id, c.id))
  }

  function CursorOf(e: Entry): Cursor { Cursor(e.createdAt, e.id) }

  /** The table in index order: newest first, ties by id, no two rows alike. */
  ghost predicate Indexed(table: seq<Entry>) {
    && (forall i :: 0 <= i < |table| ==> Plain(table[i].id) && |table[i].id| > 0)
    && (forall i, j :: 0 <= i < j < |table| ==> Older(table[j], CursorOf(table[i])))
  }

  function OfAccount(table: seq<Entry>, account: string): seq<Entry> {
    if |table| == 0 then []
    else if table[0].account == account then [table[0]] + OfAccount(table[1..], account)
    else OfAccount(table[1..], account)
  }

  function After(rows: seq<Entry>, c: Option<Cursor>): seq<Entry> {
    if |rows| == 0 then []
    else if c.None? || Older(rows[0], c.value) then [rows[0]] + After(rows[1..], c)
    else After(rows[1..], c)
  }

  /** The query: the account's rows after the cursor, in order, at most `limit`. */
  function ListLedgerPage(table: seq<Entry>, account: string, limit: nat, cursor: Option<Cursor>): seq<Entry> {
    var rows := After(OfAccount(table, account), cursor);
    if |rows| <= limit then rows else rows[..limit]
  }

  const DEFAULT_LIMIT: int := 50

  datatype Response = BadRequest | Page(entries: seq<Entry>, nextCursor: Option<string>)

  /** The ledger route, with the service call it makes. */
  method UsageLedger(table: seq<Entry>, account: string, limitParam: Option<int>,
                     raw: Option<string>) returns (r: Response)
    ensures r == Route(table, account, limitParam, raw)
  {
    hide After, OfAccount, DecodeLedgerCursor, EncodeLedgerCursor;
    if limitParam.Some? && !(1 <= limitParam.value <= 200) { return BadRequest; }
    var cursor: Option<Cursor> := None;
    if raw.Some? {
      if |raw.value| == 0 { return BadRequest; }
      cursor := DecodeLedgerCursor(raw.value);
      if cursor.None? { return BadRequest; }
    }
    var limit := if limitParam.Some? then limitParam.value else DEFAULT_LIMIT;
    var rows := ListLedgerPage(table, account, limit + 1, cursor);
    var hasMore := |rows| > limit;
    var entries := if hasMore then rows[..limit] else rows;
    r := Page(entries,
              if hasMore && |entries| > 0 then Some(EncodeLedgerCursor(CursorOf(entries[|entries| - 1]))) else None);
  }

  /** What the route answers, seen from the whole ledger: the next `limit` rows after
      the cursor, and a cursor exactly when rows remain. */
  function Route(table: seq<Entry>, account: string, limitParam: Option<int>, raw: Option<string>): Response {
    var limit := if limitParam.Some? then limitParam.value else DEFAULT_LIMIT;
    if !(1 <= limit <= 200) || raw == Some("") || (raw.Some? && DecodeLedgerCursor(raw.value).None?) then BadRequest
    else
      var rest := After(OfAccount(table, account), if raw.Some? then DecodeLedgerCursor(raw.value) else None);
      if |rest| <= limit then Page(rest, None)
      else Page(rest[..limit], Some(EncodeLedgerCursor(CursorOf(rest[limit - 1]))))
  }

  /** A request is refused exactly for a page size outside 1 to 200 or a cursor that is
      empty or stands for none. */
  lemma RefusedExactly(table: seq<Entry>, account: string, limitParam: Option<int>, raw: Option<string>)
    ensures Route(table, account, limitParam, raw).BadRequest?
            <==> || (limitParam.Some? && !(1 <= limitParam.value <= 200))
                 || (raw.Some? && (raw.value == "" || forall c :: DecodeLedgerCursor(raw.value) != Some(c)))
  {
    hide DecodeLedgerCursor, EncodeLedgerCursor, After, OfAccount;
  }

  /** Where a cursor cuts the list: after the first `k` rows. */
  ghost predicate CutsAt(rows: seq<Entry>, c: Cursor, k: nat) {
    k <= |rows| && forall i :: 0 <= i < |rows| ==> (Older(rows[i], c) <==> k <= i)
  }

  /** A cursor need not be of a row that is there: the page starts at the first of the
      account's rows that comes after it in the order of the index. */
  lemma {:induction false} AfterAny(rows: seq<Entry>, c: Cursor) returns (k: nat)
    requires Indexed(rows)
    ensures CutsAt(rows, c, k) && After(rows, Some(c)) == rows[k..]
    decreases |rows|
  {
    hide Older, Indexed;
    if |rows| == 0 {
      k := 0;
    } else if Older(rows[0], c) {
      k := 0;
      IndexedTail(rows);
      forall i | 0 <= i < |rows| ensures Older(rows[i], c) {
        if i > 0 {
          assert rows[i] in rows[1..];
          OlderStill(rows[i], rows[0], c);
        }
      }
      AllAfter(rows, c);
    } else {
      IndexedTail(rows);
      var m := AfterAny(rows[1..], c);
      k := m + 1;
      assert rows[1..][m..] == rows[k..];
      forall i | 0 <= i < |rows|
        ensures Older(rows[i], c) <==> k <= i
      {
        if i > 0 { assert rows[i] == rows[1..][i - 1]; }
      }
    }
  }

  lemma OlderStill(e: Entry, f: Entry, c: Cursor)
    requires Older(e, CursorOf(f)) && Older(f, c)
    ensures Older(e, c)
  {
    if e.createdAt == f.createdAt == c.createdAt { IdOrderTransitive(e.id, f.id, c.id); }
  }

  // ---------------------------------------------------------------- following cursors

  /** New entries before each request, the first element before the second request. */
  function Grown(table: seq<Entry>, news: seq<seq<Entry>>): seq<Entry> {
    if |news| == 0 then table else news[0] + table
  }

  function Later(news: seq<seq<Entry>>): seq<seq<Entry>> { if |news| == 0 then [] else news[1..] }

  /** The table stays in index order as the new entries arrive: each is strictly newer
      than every entry before it. */
  ghost predicate Growing(table: seq<Entry>, news: seq<seq<Entry>>)
    decreases |news|
  {
    Indexed(table) && (|news| > 0 ==> Growing(news[0] + table, news[1..]))
  }

  /** All entries a client gathers that follows cursors until there is none. `left`
      bounds the requests. */
  function Follow(table: seq<Entry>, account: string, limit: Option<int>, raw: Option<string>, news: seq<seq<Entry>>,
                  left: nat): Option<seq<Entry>>
    decreases left
  {
    var page := Route(table, account, limit, raw);
    if page.BadRequest? then None
    else if page.nextCursor.None? then Some(page.entries)
    else if left == 0 then None
    else
      var rest := Follow(Grown(table, news), account, limit, page.nextCursor, Later(news), left - 1);
      if rest.None? then None else Some(page.entries + rest.value)
  }

  lemma IdOrder(a: string, b: string)
    ensures !(IdLess(a, b) && IdLess(b, a)) && !IdLess(a, a)
    decreases |a|
  {
    if |a| > 0 && |b| > 0 { IdOrder(a[1..], b[1..]); }
    if |a| > 0 { IdOrder(a[1..], a[1..]); }
  }

  lemma {:induction false} IdOrderTransitive(a: string, b: string, c: string)
    requires IdLess(a, b) && IdLess(b, c)
    ensures IdLess(a, c)
    decreases |a|
  {
    if |a| > 0 && a[0] == b[0] == c[0] { IdOrderTransitive(a[1..], b[1..], c[1..]); }
  }

  /** The order of the index: by time, newest first, then by id, and total on rows that
      differ in one of the two. */
  lemma OlderIsTotal(e: Entry, f: Entry)
    ensures e.createdAt < f.createdAt ==> Older(e, CursorOf(f)) && !Older(f, CursorOf(e))
    ensures e.createdAt == f.createdAt ==> (Older(e, CursorOf(f)) <==> IdLess(e.id, f.id))
    ensures Older(e, CursorOf(f)) || Older(f, CursorOf(e)) || (e.createdAt == f.createdAt && e.id == f.id)
  {
    IdTotal(e.id, f.id);
  }

  lemma {:induction false} IdTotal(a: string, b: string)
    ensures IdLess(a, b) || IdLess(b, a) || a == b
    decreases |a|
  {
    if |a| > 0 && |b| > 0 {
      IdTotal(a[1..], b[1..]);
      assert a == [a[0]] + a[1..] && b == [b[0]] + b[1..];
    }
  }

  lemma NotOlderBack(e: Entry, f: Entry)
    requires Older(f, CursorOf(e))
    ensures !Older(e, CursorOf(f)) && !Older(e, CursorOf(e))
  {
    IdOrder(e.id, f.id);
    IdOrder(e.id, e.id);
  }

  lemma {:induction false} OfAccountIn(table: seq<Entry>, account: string, e: Entry)
    ensures e in OfAccount(table, account) <==> e in table && e.account == account
    decreases |table|
  {
    if |table| > 0 {
      OfAccountIn(table[1..], account, e);
      assert table == [table[0]] + table[1..];
    }
  }

  lemma IndexedCons(first: Entry, rest: seq<Entry>)
    requires Indexed(rest) && Plain(first.id) && |first.id| > 0
    requires forall e :: e in rest ==> Older(e, CursorOf(first))
    ensures Indexed([first] + rest)
  {
    hide Older, Plain;
  }

  lemma IndexedTail(table: seq<Entry>)
    requires Indexed(table) && |table| > 0
    ensures Indexed(table[1..]) && Plain(table[0].id) && |table[0].id| > 0
    ensures forall e :: e in table[1..] ==> Older(e, CursorOf(table[0]))
  {
    hide Older, Plain;
  }

  lemma {:induction false} OfAccountIndexed(table: seq<Entry>, account: string)
    requires Indexed(table)
    ensures Indexed(OfAccount(table, account))
            && forall e :: e in OfAccount(table, account) <==> e in table && e.account == account
    decreases |table|
  {
    hide Indexed, Older, Plain;
    forall e ensures e in OfAccount(table, account) <==> e in table && e.account == account {
      OfAccountIn(table, account, e);
    }
    if |table| > 0 {
      IndexedTail(table);
      OfAccountIndexed(table[1..], account);
      if table[0].account == account { IndexedCons(table[0], OfAccount(table[1..], account)); }
    } else {
      NothingIndexed();
    }
  }

  lemma NothingIndexed()
    ensures Indexed([])
  {
  }

  lemma {:induction false} OfAccountConcat(x: seq<Entry>, y: seq<Entry>, account: string)
    ensures OfAccount(x + y, account) == OfAccount(x, account) + OfAccount(y, account)
    decreases |x|
  {
    if |x| > 0 {
      assert (x + y)[1..] == x[1..] + y;
      OfAccountConcat(x[1..], y, account);
    } else {
      assert x + y == y;
    }
  }

  lemma {:induction false} AllAfter(rows: seq<Entry>, c: Cursor)
    requires forall i :: 0 <= i < |rows| ==> Older(rows[i], c)
    ensures After(rows, Some(c)) == rows
  {
    if |rows| > 0 { AllAfter(rows[1..], c); }
  }

  lemma {:induction false} AllAfterNone(rows: seq<Entry>)
    ensures After(rows, None) == rows
  {
    if |rows| > 0 { AllAfterNone(rows[1..]); }
  }

  /** In an ordered list, the rows after the k-th row's cursor are those that follow it. */
  lemma {:induction false} AfterRow(rows: seq<Entry>, k: nat)
    requires Indexed(rows) && k < |rows|
    ensures After(rows, Some(CursorOf(rows[k]))) == rows[k + 1..]
    decreases |rows|
  {
    if k == 0 {
      IdOrder(rows[0].id, rows[0].id);
      AllAfter(rows[1..], CursorOf(rows[0]));
    } else {
      NotOlderBack(rows[0], rows[k]);
      AfterRow(rows[1..], k - 1);
      assert rows[1..][k - 1] == rows[k] && rows[1..][k..] == rows[k + 1..];
    }
  }

  /** What a request in the middle of a session still has to show: entries that arrived
      since the first one stand before the rows already seen and are not repeated. */
  lemma RestOf(rows: seq<Entry>, extra: seq<Entry>, all: seq<Entry>, k: nat)
    requires Indexed(rows) && rows == extra + all && 0 < k <= |all|
    ensures After(rows, Some(CursorOf(all[k - 1]))) == all[k..]
    ensures DecodeLedgerCursor(EncodeLedgerCursor(CursorOf(all[k - 1]))) == Some(CursorOf(all[k - 1]))
    ensures EncodeLedgerCursor(CursorOf(all[k - 1])) != ""
  {
    hide DecodeLedgerCursor, EncodeLedgerCursor, After, Indexed;
    var at := |extra| + k - 1;
    assert rows[at] == all[k - 1];
    AfterRow(rows, at);
    assert rows[at + 1..] == all[k..];
    PlainRow(rows, at);
    CursorRoundTrip(CursorOf(rows[at]));
    NonEmptyCursor(CursorOf(rows[at]));
  }

  lemma PageOf(table: seq<Entry>, account: string, limit: nat, raw: Option<string>, extra: seq<Entry>, all: seq<Entry>,
               k: nat)
    requires 1 <= limit <= 200 && Indexed(table) && OfAccount(table, account) == extra + all && k <= |all|
    requires if k == 0 then raw.None? && extra == [] else raw == Some(EncodeLedgerCursor(CursorOf(all[k - 1])))
    ensures Route(table, account, Some(limit), raw)
            == if |all| - k <= limit then Page(all[k..], None)
               else Page(all[k..k + limit], Some(EncodeLedgerCursor(CursorOf(all[k + limit - 1]))))
  {
    hide DecodeLedgerCursor, EncodeLedgerCursor, After, Indexed, OfAccount;
    var rows := OfAccount(table, account);
    OfAccountIndexed(table, account);
    if k == 0 {
      AllAfterNone(rows);
      assert rows == all && all[0..] == all;
    } else {
      RestOf(rows, extra, all, k);
    }
    if |all| - k > limit { PageSlice(all, k, limit); }
  }

  lemma PageSlice(all: seq<Entry>, k: nat, limit: nat)
    requires 1 <= limit && k + limit <= |all|
    ensures all[k..][..limit] == all[k..k + limit] && all[k..][limit - 1] == all[k + limit - 1]
  {
  }

  lemma PlainRow(rows: seq<Entry>, i: nat)
    requires Indexed(rows) && i < |rows|
    ensures Plain(rows[i].id) && |rows[i].id| > 0
  {
  }

  lemma NonEmptyCursor(c: Cursor)
    requires Plain(c.id) && |c.id| > 0
    ensures EncodeLedgerCursor(c) != ""
  {
    hide ToIso, FromIso, EncodeLedgerCursor;
    CursorRoundTrip(c);
    if EncodeLedgerCursor(c) == "" { EmptyIsNoCursor(); }
  }

  lemma EmptyIsNoCursor()
    ensures DecodeLedgerCursor("").None?
  {
    assert B.Read("") == [];
    assert FromBytes([]) == "";
  }

  lemma {:induction false} FollowGathers(table: seq<Entry>, account: string, limit: nat, raw: Option<string>,
                                         news: seq<seq<Entry>>, left: nat,
                                         extra: seq<Entry>, all: seq<Entry>, k: nat)
    requires 1 <= limit <= 200 && Growing(table, news) && OfAccount(table, account) == extra + all && k <= |all|
             && |all| - k <= left
    requires if k == 0 then raw.None? && extra == [] else raw == Some(EncodeLedgerCursor(CursorOf(all[k - 1])))
    ensures Follow(table, account, Some(limit), raw, news, left) == Some(all[k..])
    decreases left
  {
    hide Route, EncodeLedgerCursor, OfAccount, Indexed, Growing, Grown, Later;
    GrowingNext(table, news);
    PageOf(table, account, limit, raw, extra, all, k);
    if |all| - k > limit {
      var more := OfAccountGrown(table, account, news, extra, all);
      FollowGathers(Grown(table, news), account, limit, Route(table, account, Some(limit), raw).nextCursor, Later(news),
                    left - 1,
                    more, all, k + limit);
      Sliced(all, k, limit);
    }
  }

  lemma GrowingNext(table: seq<Entry>, news: seq<seq<Entry>>)
    requires Growing(table, news)
    ensures Indexed(table) && Growing(Grown(table, news), Later(news))
  {
  }

  lemma Sliced(all: seq<Entry>, k: nat, limit: nat)
    requires k + limit <= |all|
    ensures all[k..k + limit] + all[k + limit..] == all[k..]
  {
  }

  lemma OfAccountGrown(table: seq<Entry>, account: string, news: seq<seq<Entry>>, extra: seq<Entry>, all: seq<Entry>)
      returns (more: seq<Entry>)
    requires OfAccount(table, account) == extra + all
    ensures OfAccount(Grown(table, news), account) == more + all
  {
    var added := if |news| == 0 then [] else news[0];
    assert Grown(table, news) == added + table;
    OfAccountConcat(added, table, account);
    more := OfAccount(added, account) + extra;
    assert OfAccount(added, account) + (extra + all) == more + all;
  }

  /** A request without a page size is one for the default size. */
  lemma {:induction false} FollowDefault(table: seq<Entry>, account: string, limit: int, raw: Option<string>,
                                         news: seq<seq<Entry>>, left: nat)
    requires limit == DEFAULT_LIMIT
    ensures Follow(table, account, None, raw, news, left) == Follow(table, account, Some(limit), raw, news, left)
    decreases left
  {
    hide DecodeLedgerCursor, EncodeLedgerCursor, After, OfAccount;
    var page := Route(table, account, None, raw);
    if page.Page? && page.nextCursor.Some? && left > 0 {
      FollowDefault(Grown(table, news), account, limit, page.nextCursor, Later(news), left - 1);
    }
  }

  /** For every page size, given or not, following cursors ends, after at most one
      request per entry, with the whole ledger as it was at the first request, each
      entry once and in order, whatever strictly newer entries arrive in between. */
  lemma PagesAreTheLedger(table: seq<Entry>, account: string, limit: Option<int>, news: seq<seq<Entry>>)
    requires (limit.Some? ==> 1 <= limit.value <= 200) && Growing(table, news)
    ensures Follow(table, account, limit, None, news, |OfAccount(table, account)|) == Some(OfAccount(table, account))
    ensures Indexed(OfAccount(table, account))
            && forall e :: e in OfAccount(table, account) <==> e in table && e.account == account
  {
    hide Follow, Indexed;
    OfAccountIndexed(table, account) by { GrowingNext(table, news); }
    var all := OfAccount(table, account);
    assert [] + all == all && all[0..] == all;
    var size := if limit.Some? then limit.value else DEFAULT_LIMIT;
    FollowGathers(table, account, size, None, news, |all|, [], all, 0);
    if limit.None? { FollowDefault(table, account, size, None, news, |all|); }
  }
}
