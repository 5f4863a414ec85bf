/**
 * The asset catalogue page by page: ascending market-cap rank, unranked assets
 * last, identifiers breaking ties, with the position carried in a cursor text.
 */
module AssetPages {
  import opened Options
  import opened Ordering
  import opened DigitStrings
  import opened Slices
  import KeysetWalk

  const PAGE_SIZE_DEFAULT := 20

  /** What the order looks at; the other columns of a row ride along. */
  datatype Key = Key(rank: Option<int>, id: string)

  /** Market-cap rank by identifier. */
  type Catalogue = map<string, Option<int>>

  function Keys(table: Catalogue): set<Key> {
    set id | id in table :: Key(table[id], id)
  }

  /** `marketCapRank ASC NULLS LAST, id ASC`. */
  predicate KeyLess(a: Key, b: Key) {
    if a.rank.Some? && b.rank.Some? && a.rank.value != b.rank.value then a.rank.value < b.rank.value
    else if a.rank.Some? != b.rank.Some? then a.rank.Some?
    else IdLess(a.id, b.id)
  }

  lemma KeyOrder()
    ensures StrictTotalOrder(KeyLess)
  {
    IdOrder();
    hide IdLess;
    forall x, y, z | KeyLess(x, y) && KeyLess(y, z)
      ensures KeyLess(x, z)
    {
      assert IdLess(x.id, y.id) && IdLess(y.id, z.id) ==> IdLess(x.id, z.id);
    }
  }

  // ------------------------------------------------------------- identifiers

  predicate IsHex(c: char) {
    '0' <= c <= '9' || 'a' <= c <= 'f' || 'A' <= c <= 'F'
  }

  predicate IsUuid(text: string) {
    |text| == 36 && forall i :: 0 <= i < 36 ==> if i in {8, 13, 18, 23} then text[i] == '-' else IsHex(text[i])
  }

  function LowerChar(c: char): char {
    if 'A' <= c <= 'F' then c - 'A' + 'a' else c
  }

  /** The identifier a `uuid` column compares with: letter case does not matter. */
  function Canonical(id: string): string {
    seq(|id|, i requires 0 <= i < |id| => LowerChar(id[i]))
  }

  /** Identifiers come out of the `uuid` column in their canonical form. */
  predicate WellFormed(table: Catalogue) {
    forall id :: id in table ==> IsUuid(id) && Canonical(id) == id
  }

  // ------------------------------------------------------------------ cursor

  /**
   * The foreign text functions: URL-safe Base64, and `Number` restricted to
   * integer results. `decode` is `None` where decoding throws.
   */
  datatype Codec = Codec(encode: string -> string, decode: string -> Option<string>, number: string -> Option<int>)

  function IntegerText(n: int): string {
    if n < 0 then "-" + FromNat(-n) else FromNat(n)
  }

  /** The two Base64 directions are inverse and never empty on text, and `Number` reads what `String` wrote. */
  ghost predicate Faithful(codec: Codec) {
    && (forall text :: codec.decode(codec.encode(text)) == Some(text))
    && (forall text :: text != "" ==> codec.encode(text) != "")
    && (forall n :: codec.number(IntegerText(n)) == Some(n))
  }

  datatype Cursor = Start | At(key: Key) | Invalid

  function RankText(rank: Option<int>): string {
    if rank.None? then "null" else IntegerText(rank.value)
  }

  function EncodeCursor(codec: Codec, key: Key): string {
    codec.encode(RankText(key.rank) + ":" + key.id)
  }

  /** Position of the first separator, or the length when there is none. */
  function Separator(text: string): (i: nat)
    ensures i <= |text|
    ensures forall k :: 0 <= k < i ==> text[k] != ':'
    ensures i < |text| ==> text[i] == ':'
  {
    if text == "" || text[0] == ':' then 0 else 1 + Separator(text[1..])
  }

  function ParseDecoded(codec: Codec, decoded: string): Cursor {
    var i := Separator(decoded);
    if i == |decoded| then Invalid
    else
      var rankPart, idPart := decoded[..i], decoded[i + 1..];
      if !IsUuid(idPart) then Invalid
      else if rankPart == "null" then At(Key(None, idPart))
      else
        var rank := codec.number(rankPart);
        if rank.None? then Invalid else At(Key(rank, idPart))
  }

  function ParseCursor(codec: Codec, cursor: Option<string>): Cursor {
    if cursor.None? || cursor.value == "" then Start
    else
      var decoded := codec.decode(cursor.value);
      if decoded.None? then Invalid else ParseDecoded(codec, decoded.value)
  }

  // -------------------------------------------------------------------- page

  /** The `WHERE` clause of a resumed page, disjunct by disjunct. */
  predicate CursorCondition(cursor: Key, row: Key) {
    if cursor.rank.None? then row.rank.None? && IdLess(Canonical(cursor.id), row.id)
    else
      || (row.rank.Some? && row.rank.value > cursor.rank.value)
      || (row.rank.Some? && row.rank.value == cursor.rank.value && IdLess(Canonical(cursor.id), row.id))
      || row.rank.None?
  }

  function Matching(table: Catalogue, cursor: Cursor): set<Key> {
    set row | row in Keys(table) && (cursor.At? ==> CursorCondition(cursor.key, row))
  }

  function List(table: Catalogue, cursor: Cursor, limit: nat): seq<Key> {
    KeyOrder();
    Take(Sort(Matching(table, cursor), KeyLess), limit)
  }

  datatype Paginated<T> = Paginated(items: seq<T>, nextCursor: Option<string>)

  function Paginate<T>(items: seq<T>, limit: nat, encodeItem: T -> string): Paginated<T>
    requires limit > 0
  {
    var page := Take(items, limit);
    Paginated(page, if |items| > limit then Some(encodeItem(page[|page| - 1])) else None)
  }

  /** A request may leave the limit out; one it sends is positive. */
  predicate Asks(limit: Option<nat>) {
    limit.Some? ==> limit.value > 0
  }

  /** `None` is the invalid-cursor error. One row more than the page is read, to learn whether there is a next one. */
  function Execute(codec: Codec, table: Catalogue, cursor: Option<string>, limit: Option<nat>): Option<Paginated<Key>>
    requires Asks(limit)
  {
    var take := if limit.Some? then limit.value else PAGE_SIZE_DEFAULT;
    var position := ParseCursor(codec, cursor);
    if position.Invalid? then None
    else Some(Paginate(List(table, position, take + 1), take, key => EncodeCursor(codec, key)))
  }

  // -------------------------------------------------------------- round trip

  lemma SeparatorAfter(prefix: string, rest: string)
    requires forall i :: 0 <= i < |prefix| ==> prefix[i] != ':'
    ensures Separator(prefix + ":" + rest) == |prefix|
  {
    var text := prefix + ":" + rest;
    var i := Separator(text);
    assert text[|prefix|] == ':';
    assert forall k :: 0 <= k < |prefix| ==> text[k] == prefix[k];
  }

  lemma RankTextShape(rank: Option<int>)
    ensures forall i :: 0 <= i < |RankText(rank)| ==> RankText(rank)[i] != ':'
    ensures rank.Some? ==> RankText(rank) != "null"
  {
    if rank.Some? {
      var n := if rank.value < 0 then -rank.value else rank.value;
      var digits := FromNat(n);
      assert forall i :: 0 <= i < |digits| ==> IsDigit(digits[i]);
      assert rank.value >= 0 ==> IsDigit(RankText(rank)[0]);
      assert "null"[0] == 'n';
    }
  }

  /** A cursor made from a row is read back as that row's position. */
  lemma CursorRoundTrip(codec: Codec, key: Key)
    requires Faithful(codec) && IsUuid(key.id)
    ensures ParseCursor(codec, Some(EncodeCursor(codec, key))) == At(key)
  {
    hide IsUuid, IntegerText;
    var rank := RankText(key.rank);
    var text := rank + ":" + key.id;
    RankTextShape(key.rank);
    SeparatorAfter(rank, key.id);
    assert text != "" && codec.decode(codec.encode(text)) == Some(text);
    assert text[..|rank|] == rank && text[|rank| + 1..] == key.id;
  }

  /** The decoded text is a rank, a separator and the key's identifier. */
  predicate Spells(codec: Codec, text: string, rankPart: string, key: Key) {
    && (forall i :: 0 <= i < |rankPart| ==> rankPart[i] != ':')
    && text == rankPart + ":" + key.id
    && IsUuid(key.id)
    && (if rankPart == "null" then key.rank == None else key.rank.Some? && codec.number(rankPart) == key.rank)
  }

  /** A cursor is accepted as a position exactly if it decodes to a rank and an identifier that spell it. */
  lemma AcceptedIff(codec: Codec, cursor: string, key: Key)
    requires cursor != ""
    ensures ParseCursor(codec, Some(cursor)) == At(key) <==>
              var decoded := codec.decode(cursor);
              decoded.Some? && exists rankPart :: Spells(codec, decoded.value, rankPart, key)
  {
    hide IsUuid;
    var decoded := codec.decode(cursor);
    if decoded.Some? {
      var text := decoded.value;
      var i := Separator(text);
      if ParseDecoded(codec, text) == At(key) {
        assert text == text[..i] + ":" + key.id;
        assert Spells(codec, text, text[..i], key);
      }
      if rankPart :| Spells(codec, text, rankPart, key) {
        SeparatorAfter(rankPart, key.id);
        assert text[..i] == rankPart && text[i + 1..] == key.id;
      }
    }
  }

  /** A cursor that spells no position is refused, whatever the limit. */
  lemma RefusedIff(codec: Codec, table: Catalogue, cursor: string, limit: Option<nat>)
    requires cursor != "" && Asks(limit)
    ensures Execute(codec, table, Some(cursor), limit).None? <==>
              var decoded := codec.decode(cursor);
              decoded.Some? ==> forall rankPart, key :: !Spells(codec, decoded.value, rankPart, key)
  {
    hide Spells, Paginate, List, ParseDecoded;
    var at := ParseCursor(codec, Some(cursor));
    NeverStart(codec, cursor);
    if at.At? { AcceptedIff(codec, cursor, at.key); }
    var decoded := codec.decode(cursor);
    if decoded.Some? {
      forall rankPart, key | Spells(codec, decoded.value, rankPart, key)
        ensures at == At(key)
      {
        AcceptedIff(codec, cursor, key);
      }
    }
  }

  lemma NeverStart(codec: Codec, cursor: string)
    requires cursor != ""
    ensures !ParseCursor(codec, Some(cursor)).Start?
  {
  }

  /** The characters of an identifier. */
  lemma HexCharacters(c: char)
    ensures IsHex(c) <==> c in "0123456789abcdefABCDEF"
  {
    var all := "0123456789abcdefABCDEF";
    if '0' <= c <= '9' { assert all[(c - '0') as int] == c; }
    if 'a' <= c <= 'f' { assert all[10 + (c - 'a') as int] == c; }
    if 'A' <= c <= 'F' { assert all[16 + (c - 'A') as int] == c; }
  }

  predicate AllHex(text: string) {
    forall i :: 0 <= i < |text| ==> text[i] in "0123456789abcdefABCDEF"
  }

  /** Five groups of hexadecimal digits joined by dashes. */
  predicate IsGrouped(text: string, a: string, b: string, c: string, d: string, e: string) {
    && |a| == 8 && |b| == 4 && |c| == 4 && |d| == 4 && |e| == 12
    && AllHex(a) && AllHex(b) && AllHex(c) && AllHex(d) && AllHex(e)
    && text == a + "-" + b + "-" + c + "-" + d + "-" + e
  }

  lemma UuidIff(text: string)
    ensures IsUuid(text) <==> exists a, b, c, d, e :: IsGrouped(text, a, b, c, d, e)
  {
    hide IsHex, AllHex;
    if IsUuid(text) {
      var a, b, c, d, e := text[..8], text[9..13], text[14..18], text[19..23], text[24..];
      TakenInGroups(text);
      HexTexts(a, b, c, d, e);
      assert IsGrouped(text, a, b, c, d, e);
    }
    if a, b, c, d, e :| IsGrouped(text, a, b, c, d, e) {
      HexTexts(a, b, c, d, e);
      GroupsMakeUuid(text, a, b, c, d, e);
    }
  }

  predicate OnlyHex(text: string) {
    forall i :: 0 <= i < |text| ==> IsHex(text[i])
  }

  lemma HexText(text: string)
    ensures AllHex(text) <==> OnlyHex(text)
  {
    forall i | 0 <= i < |text|
      ensures IsHex(text[i]) <==> text[i] in "0123456789abcdefABCDEF"
    {
      HexCharacters(text[i]);
    }
  }

  lemma HexTexts(a: string, b: string, c: string, d: string, e: string)
    ensures AllHex(a) && AllHex(b) && AllHex(c) && AllHex(d) && AllHex(e)
       <==> OnlyHex(a) && OnlyHex(b) && OnlyHex(c) && OnlyHex(d) && OnlyHex(e)
  {
    hide AllHex, OnlyHex;
    HexText(a);
    HexText(b);
    HexText(c);
    HexText(d);
    HexText(e);
  }

  lemma TakenInGroups(text: string)
    requires IsUuid(text)
    ensures text == text[..8] + "-" + text[9..13] + "-" + text[14..18] + "-" + text[19..23] + "-" + text[24..]
    ensures OnlyHex(text[..8]) && OnlyHex(text[9..13]) && OnlyHex(text[14..18]) && OnlyHex(text[19..23])
    ensures OnlyHex(text[24..])
  {
    hide IsHex;
  }

  lemma GroupsMakeUuid(text: string, a: string, b: string, c: string, d: string, e: string)
    requires |a| == 8 && |b| == 4 && |c| == 4 && |d| == 4 && |e| == 12
    requires OnlyHex(a) && OnlyHex(b) && OnlyHex(c) && OnlyHex(d) && OnlyHex(e)
    requires text == a + "-" + b + "-" + c + "-" + d + "-" + e
    ensures IsUuid(text)
  {
    hide IsHex;
    forall i | 0 <= i < 36
      ensures if i in {8, 13, 18, 23} then text[i] == '-' else IsHex(text[i])
    {
    }
  }

  /** The same letter, in either case. */
  predicate SameLetter(c: char, d: char) {
    c == d || exists k :: 0 <= k < 6 && {c, d} == {"abcdef"[k], "ABCDEF"[k]}
  }

  predicate SameLetters(a: string, b: string) {
    |a| == |b| && forall i :: 0 <= i < |a| ==> SameLetter(a[i], b[i])
  }

  lemma SameLetterLowers(c: char, d: char)
    requires SameLetter(c, d)
    ensures LowerChar(c) == LowerChar(d)
  {
    if k :| 0 <= k < 6 && {c, d} == {"abcdef"[k], "ABCDEF"[k]} {
      assert c in {c, d} && d in {c, d};
    }
  }

  /** Identifiers that differ in letter case only mark the same position; one without capitals is its own. */
  lemma CaseDoesNotMatter(rank: Option<int>, id: string, other: string)
    requires SameLetters(id, other)
    ensures Position(At(Key(rank, id))) == Position(At(Key(rank, other)))
    ensures (forall i :: 0 <= i < |id| ==> id[i] !in "ABCDEF") ==> Position(At(Key(rank, id))) == Some(Key(rank, id))
  {
    forall i | 0 <= i < |id|
      ensures LowerChar(id[i]) == LowerChar(other[i])
      ensures id[i] !in "ABCDEF" ==> LowerChar(id[i]) == id[i]
    {
      SameLetterLowers(id[i], other[i]);
      if 'A' <= id[i] <= 'F' { assert "ABCDEF"[(id[i] - 'A') as int] == id[i]; }
    }
    hide LowerChar, SameLetters;
    assert Canonical(id) == Canonical(other);
    if forall i :: 0 <= i < |id| ==> id[i] !in "ABCDEF" { assert Canonical(id) == id; }
  }

  // ------------------------------------------------------- the query's window

  /** Where a cursor resumes, as a position in the order. */
  function Position(cursor: Cursor): Option<Key> {
    if cursor.At? then Some(Key(cursor.key.rank, Canonical(cursor.key.id))) else None
  }

  /** The three disjuncts are exactly "after the cursor" in the order the query sorts by. */
  lemma ConditionIsTheOrder(cursor: Key, row: Key)
    ensures CursorCondition(cursor, row) <==> KeyLess(Key(cursor.rank, Canonical(cursor.id)), row)
  {
  }

  lemma MatchingIsBeyond(table: Catalogue, cursor: Cursor)
    ensures Matching(table, cursor) == KeysetWalk.Beyond(Keys(table), Position(cursor), KeyLess)
  {
    hide Keys, CursorCondition, KeyLess;
    forall row
      ensures row in Matching(table, cursor) <==> row in KeysetWalk.Beyond(Keys(table), Position(cursor), KeyLess)
    {
      if cursor.At? { ConditionIsTheOrder(cursor.key, row); }
    }
  }

  /** How many rows a page has, if there are that many: twenty unless the request says otherwise. */
  function Rows(limit: Option<nat>): nat {
    if limit.None? then 20 else limit.value
  }

  /** A page is the window of the sorted rows at the cursor; there is a next cursor exactly when rows are left over. */
  lemma PageIsAWindow(codec: Codec, table: Catalogue, cursor: Option<string>, limit: Option<nat>)
    requires Asks(limit) && !ParseCursor(codec, cursor).Invalid?
    ensures StrictTotalOrder(KeyLess)
    ensures var r := Execute(codec, table, cursor, limit);
            var at := Position(ParseCursor(codec, cursor));
            && r.Some?
            && r.value.items == KeysetWalk.Window(Keys(table), at, Rows(limit), KeyLess)
            && (r.value.nextCursor.None? <==> |r.value.items| == |KeysetWalk.Beyond(Keys(table), at, KeyLess)|)
            && (r.value.nextCursor.Some? ==>
                  |r.value.items| == Rows(limit)
                  && r.value.nextCursor.value == EncodeCursor(codec, r.value.items[Rows(limit) - 1]))
  {
    KeyOrder();
    hide StrictTotalOrder, KeyLess, ParseCursor, EncodeCursor, Keys, Ascending, Matching, Paginate, Take;
    var position := ParseCursor(codec, cursor);
    MatchingIsBeyond(table, position);
    PaginatedList(Sort(Matching(table, position), KeyLess), Rows(limit), key => EncodeCursor(codec, key));
  }

  /** Paginating one row more than the page holds: the page, and a next cursor exactly when something is left over. */
  lemma PaginatedList(all: seq<Key>, n: nat, encode: Key -> string)
    requires n > 0
    ensures var r := Paginate(Take(all, n + 1), n, encode);
            && r.items == Take(all, n)
            && (r.nextCursor.None? <==> |r.items| == |all|)
            && (r.nextCursor.Some? ==> |r.items| == n && r.nextCursor.value == encode(r.items[n - 1]))
  {
    assert Take(Take(all, n + 1), n) == Take(all, n);
  }

  /** Without a cursor, or with an empty one, the page is the window at the top. */
  lemma StartsAtTheTop(codec: Codec, table: Catalogue, cursor: Option<string>, limit: Option<nat>)
    requires Asks(limit) && (cursor == None || cursor == Some(""))
    ensures StrictTotalOrder(KeyLess)
    ensures var r := Execute(codec, table, cursor, limit);
            r.Some? && r.value.items == KeysetWalk.Window(Keys(table), None, Rows(limit), KeyLess)
  {
    hide KeyLess, Keys, StrictTotalOrder, Execute;
    PageIsAWindow(codec, table, cursor, limit);
  }

  lemma ListedId(table: Catalogue, row: Key)
    requires WellFormed(table) && row in Keys(table)
    ensures IsUuid(row.id) && Canonical(row.id) == row.id
  {
  }

  /** The next cursor of a page is read back as the position of the page's last row. */
  lemma NextPosition(codec: Codec, table: Catalogue, cursor: Option<string>, limit: Option<nat>)
    requires Faithful(codec) && WellFormed(table) && Asks(limit) && !ParseCursor(codec, cursor).Invalid?
    requires Execute(codec, table, cursor, limit).value.nextCursor.Some?
    ensures var r := Execute(codec, table, cursor, limit).value;
            && |r.items| == Rows(limit)
            && ParseCursor(codec, r.nextCursor) == At(r.items[Rows(limit) - 1])
            && Position(ParseCursor(codec, r.nextCursor)) == Some(r.items[Rows(limit) - 1])
  {
    hide Faithful, WellFormed, IsUuid, Canonical, ParseCursor, EncodeCursor, KeyLess, Keys;
    PageIsAWindow(codec, table, cursor, limit);
    var r := Execute(codec, table, cursor, limit).value;
    var last := r.items[Rows(limit) - 1];
    assert last in r.items;
    ListedId(table, last);
    CursorRoundTrip(codec, last);
  }

  // ---------------------------------------------------- an unchanging catalogue

  /** Following `nextCursor` until it is null; it always comes to an end. */
  ghost function Follow(codec: Codec, table: Catalogue, limit: Option<nat>, cursor: Option<string>): seq<Key>
    requires Faithful(codec) && WellFormed(table) && Asks(limit) && !ParseCursor(codec, cursor).Invalid?
    decreases |KeysetWalk.Beyond(Keys(table), Position(ParseCursor(codec, cursor)), KeyLess)|
  {
    PageIsAWindow(codec, table, cursor, limit);
    var r := Execute(codec, table, cursor, limit).value;
    if r.nextCursor.None? then r.items
    else
      NextPosition(codec, table, cursor, limit);
      assert r.items[Rows(limit) - 1] in r.items;
      KeysetWalk.FewerBeyond(Keys(table), Position(ParseCursor(codec, cursor)), r.items[Rows(limit) - 1], KeyLess);
      r.items + Follow(codec, table, limit, r.nextCursor)
  }

  /** The page after row m - 1 of the sorted list is the list's next stretch, and its cursor marks the end. */
  lemma PageAt(codec: Codec, table: Catalogue, limit: Option<nat>, cursor: Option<string>, m: nat)
    requires Faithful(codec) && WellFormed(table) && Asks(limit) && !ParseCursor(codec, cursor).Invalid?
    requires StrictTotalOrder(KeyLess)
    requires m <= |Keys(table)|
    requires Position(ParseCursor(codec, cursor)) == if m == 0 then None else Some(Sort(Keys(table), KeyLess)[m - 1])
    ensures var all := Sort(Keys(table), KeyLess);
            var answer := Execute(codec, table, cursor, limit);
            && answer.Some?
            && var r := answer.value;
            && r.items == Take(all[m..], Rows(limit))
            && (r.nextCursor.None? ==> r.items == all[m..])
            && (r.nextCursor.Some? ==>
                  && m + Rows(limit) <= |all| && r.items == all[m..][..Rows(limit)]
                  && !ParseCursor(codec, r.nextCursor).Invalid?
                  && Position(ParseCursor(codec, r.nextCursor)) == Some(all[m + Rows(limit) - 1]))
  {
    hide Faithful, WellFormed, StrictTotalOrder, KeyLess, Keys, ParseCursor, Position, Execute, Ascending, EncodeCursor;
    PageIsAWindow(codec, table, cursor, limit);
    KeysetWalk.WindowOfSorted(Keys(table), m, Rows(limit), KeyLess);
    if Execute(codec, table, cursor, limit).value.nextCursor.Some? {
      NextPosition(codec, table, cursor, limit);
    }
  }

  /** From the row at index m - 1 on, the pages concatenate to the rest of the sorted list. */
  lemma {:induction false} FollowFrom(codec: Codec, table: Catalogue, limit: Option<nat>, cursor: Option<string>, m: nat)
    requires Faithful(codec) && WellFormed(table) && Asks(limit) && !ParseCursor(codec, cursor).Invalid?
    requires StrictTotalOrder(KeyLess)
    requires m <= |Keys(table)|
    requires Position(ParseCursor(codec, cursor)) == if m == 0 then None else Some(Sort(Keys(table), KeyLess)[m - 1])
    ensures Follow(codec, table, limit, cursor) == Sort(Keys(table), KeyLess)[m..]
    decreases |Keys(table)| - m
  {
    hide Faithful, WellFormed, StrictTotalOrder, KeyLess, Keys, ParseCursor, Position, Execute, Ascending, EncodeCursor;
    hide Take, Sort;
    PageAt(codec, table, limit, cursor, m);
    var r := Execute(codec, table, cursor, limit).value;
    if r.nextCursor.Some? {
      FollowFrom(codec, table, limit, r.nextCursor, m + Rows(limit));
      CutTwice(Sort(Keys(table), KeyLess), m, Rows(limit));
    }
  }

  lemma CutTwice(all: seq<Key>, m: nat, limit: nat)
    requires limit > 0 && m + limit <= |all|
    ensures all[m..][..limit][limit - 1] == all[m + limit - 1]
    ensures all[m..] == all[m..][..limit] + all[m + limit..]
  {
  }

  /** Following the cursors from the start concatenates to exactly the sorted catalogue, whatever the page size. */
  lemma PagesConcatenateToTheSortedList(codec: Codec, table: Catalogue, limit: Option<nat>)
    requires Faithful(codec) && WellFormed(table) && Asks(limit)
    ensures StrictTotalOrder(KeyLess)
    ensures Follow(codec, table, limit, None) == Sort(Keys(table), KeyLess)
  {
    KeyOrder();
    hide Faithful, WellFormed, StrictTotalOrder, KeyLess, Keys, Follow;
    FollowFrom(codec, table, limit, None, 0);
  }

  /**
   * The order of the whole listing, whatever the page size: ascending ranks,
   * unranked rows after all ranked ones, equal ranks by the first difference of
   * the identifiers; and every row of the catalogue once.
   */
  lemma ListingOrder(codec: Codec, table: Catalogue, limit: Option<nat>)
    requires Faithful(codec) && WellFormed(table) && Asks(limit)
    ensures var all := Follow(codec, table, limit, None);
            && |all| == |table|
            && (forall id :: id in table ==> Key(table[id], id) in all)
            && (forall i, j :: 0 <= i < j < |all| ==> ComesBefore(all[i], all[j]))
  {
    hide Faithful, WellFormed, Follow, KeyLess, ComesBefore, StrictTotalOrder;
    PagesConcatenateToTheSortedList(codec, table, limit);
    var all := Follow(codec, table, limit, None);
    KeysOnce(table);
    forall i, j | 0 <= i < j < |all|
      ensures ComesBefore(all[i], all[j])
    {
      assert KeyLess(all[i], all[j]);
      KeyLessComesBefore(all[i], all[j]);
    }
  }

  ghost predicate ComesBefore(a: Key, b: Key) {
    && (a.rank.None? ==> b.rank.None?)
    && (a.rank.Some? && b.rank.Some? ==> a.rank.value <= b.rank.value)
    && (a.rank == b.rank ==> exists i: nat :: DiffersFirstAt(a.id, b.id, i))
  }

  lemma KeyLessComesBefore(a: Key, b: Key)
    requires KeyLess(a, b)
    ensures ComesBefore(a, b)
  {
    hide IdLess;
    FirstDifferenceOrders(a.id, b.id);
  }

  lemma {:induction false} KeysOnce(table: Catalogue)
    ensures |Keys(table)| == |table|
  {
    if table == map[] {
      assert Keys(table) == {};
    } else {
      var id :| id in table;
      var rest := table - {id};
      assert rest.Keys == table.Keys - {id};
      OneKeyMore(table, id);
      KeysOnce(rest);
    }
  }

  lemma OneKeyMore(table: Catalogue, id: string)
    requires id in table
    ensures Keys(table) == Keys(table - {id}) + {Key(table[id], id)}
    ensures Key(table[id], id) !in Keys(table - {id})
  {
    var rest := table - {id};
    forall key
      ensures key in Keys(table) <==> key in Keys(rest) + {Key(table[id], id)}
    {
      if key in Keys(table) && key.id != id { assert key.id in rest; }
    }
  }

  // ------------------------------------------------------- a changing catalogue

  /** One request of a reader: the catalogue at that moment, the cursor sent and the answer. */
  datatype Request = Request(table: Catalogue, cursor: Option<string>, answer: Paginated<Key>)

  ghost predicate Answered(codec: Codec, r: Request, limit: Option<nat>)
    requires Asks(limit)
  {
    WellFormed(r.table) && Execute(codec, r.table, r.cursor, limit) == Some(r.answer)
  }

  predicate Continues(r: Request, next: Request) {
    r.answer.nextCursor.Some? && next.cursor == r.answer.nextCursor
  }

  /** A reader that sends no cursor first and then the one it was given, while the catalogue changes in between. */
  ghost predicate Browsing(codec: Codec, log: seq<Request>, limit: Option<nat>)
    requires Asks(limit)
  {
    && (forall k :: 0 <= k < |log| ==> Answered(codec, log[k], limit))
    && (log != [] ==> log[0].cursor == None)
    && (forall k, m :: 0 <= k < |log| && m == k + 1 && m < |log| ==> Continues(log[k], log[m]))
  }

  predicate ReachedTheEnd(log: seq<Request>) {
    log != [] && log[|log| - 1].answer.nextCursor.None?
  }

  function AsStep(codec: Codec, r: Request): KeysetWalk.Step<Key> {
    KeysetWalk.Step(Keys(r.table), Position(ParseCursor(codec, r.cursor)), r.answer.items, r.answer.nextCursor.None?)
  }

  function AsWalk(codec: Codec, log: seq<Request>): (steps: seq<KeysetWalk.Step<Key>>)
    ensures |steps| == |log|
    ensures forall k :: 0 <= k < |log| ==> steps[k] == AsStep(codec, log[k])
  {
    seq(|log|, k requires 0 <= k < |log| => AsStep(codec, log[k]))
  }

  lemma RequestIsAStep(codec: Codec, r: Request, limit: Option<nat>)
    requires Asks(limit) && Answered(codec, r, limit)
    ensures StrictTotalOrder(KeyLess) && KeysetWalk.Reads(AsStep(codec, r), Rows(limit), KeyLess)
  {
    hide WellFormed, KeyLess, Keys, ParseCursor, StrictTotalOrder;
    PageIsAWindow(codec, r.table, r.cursor, limit);
  }

  lemma ContinuationIsAStep(codec: Codec, r: Request, next: Request, limit: Option<nat>)
    requires Asks(limit) && Faithful(codec) && Answered(codec, r, limit) && Continues(r, next)
    ensures KeysetWalk.Resumes(AsStep(codec, r), AsStep(codec, next))
  {
    hide WellFormed, KeyLess, Keys, ParseCursor, Position, Faithful;
    NextPosition(codec, r.table, r.cursor, limit);
  }

  lemma BrowsingIsAWalk(codec: Codec, log: seq<Request>, limit: Option<nat>)
    requires Asks(limit) && Faithful(codec) && Browsing(codec, log, limit)
    ensures StrictTotalOrder(KeyLess) && KeysetWalk.Walk(AsWalk(codec, log), Rows(limit), KeyLess)
  {
    KeyOrder();
    hide StrictTotalOrder, KeyLess, Answered, Continues, Faithful, Keys, ParseCursor;
    hide KeysetWalk.Reads, KeysetWalk.Resumes;
    var steps := AsWalk(codec, log);
    forall k | 0 <= k < |steps|
      ensures KeysetWalk.Reads(steps[k], Rows(limit), KeyLess)
    {
      RequestIsAStep(codec, log[k], limit);
    }
    forall k, m | 0 <= k < |steps| && m == k + 1 && m < |steps|
      ensures KeysetWalk.Resumes(steps[k], steps[m])
    {
      ContinuationIsAStep(codec, log[k], log[m], limit);
    }
    if log != [] { NoCursorNoPosition(codec); }
  }

  lemma NoCursorNoPosition(codec: Codec)
    ensures Position(ParseCursor(codec, None)) == None
  {
  }

  /** The request whose page is the first to extend as far as the row. */
  function CoveringRequest(codec: Codec, log: seq<Request>, row: Key): (k: nat)
    requires ReachedTheEnd(log)
    ensures k < |log|
  {
    KeysetWalk.Covering(AsWalk(codec, log), row, KeyLess, 0)
  }

  /**
   * However the catalogue changes between pages: a row (an identifier with its
   * rank) is listed on the one page that covers it if it was there when that
   * page was read, and on no other.
   */
  lemma BrowsingIsComplete(codec: Codec, log: seq<Request>, limit: Option<nat>, row: Key)
    requires Asks(limit) && Faithful(codec) && Browsing(codec, log, limit) && ReachedTheEnd(log)
    ensures var k := CoveringRequest(codec, log, row);
            && (row in log[k].answer.items <==> row in Keys(log[k].table))
            && (forall j :: 0 <= j < |log| && j != k ==> row !in log[j].answer.items)
  {
    hide Faithful, Browsing, KeyLess, StrictTotalOrder, Keys, KeysetWalk.Walk, KeysetWalk.Covering, ParseCursor;
    BrowsingIsAWalk(codec, log, limit);
    KeysetWalk.WalkIsComplete(AsWalk(codec, log), Rows(limit), row, KeyLess);
    assert AsWalk(codec, log)[CoveringRequest(codec, log, row)] == AsStep(codec, log[CoveringRequest(codec, log, row)]);
    forall j | 0 <= j < |log| && j != CoveringRequest(codec, log, row)
      ensures row !in log[j].answer.items
    {
      assert AsWalk(codec, log)[j].page == log[j].answer.items;
    }
  }

  function Listed(log: seq<Request>): seq<Key> {
    if log == [] then [] else Listed(log[..|log| - 1]) + log[|log| - 1].answer.items
  }

  lemma {:induction false} ListedIsHanded(codec: Codec, log: seq<Request>)
    ensures Listed(log) == KeysetWalk.Handed(AsWalk(codec, log))
  {
    hide ParseCursor, Keys;
    if log != [] {
      var last := |log| - 1;
      ListedIsHanded(codec, log[..last]);
      assert AsWalk(codec, log)[..last] == AsWalk(codec, log[..last]);
    }
  }

  /** Rows come out in strictly ascending order over all pages, even while the catalogue changes. */
  lemma BrowsingAscends(codec: Codec, log: seq<Request>, limit: Option<nat>)
    requires Asks(limit) && Faithful(codec) && Browsing(codec, log, limit)
    ensures Ascending(Listed(log), KeyLess)
  {
    hide Faithful, Browsing, KeyLess, Keys, KeysetWalk.Walk, ParseCursor, AsWalk, Listed;
    BrowsingIsAWalk(codec, log, limit);
    ListedIsHanded(codec, log);
    KeysetWalk.HandedAscending(AsWalk(codec, log), Rows(limit), KeyLess);
  }

  /** A row present with an unchanged key throughout appears exactly once, whatever happens to other rows. */
  lemma UnchangedRowAppearsExactlyOnce(codec: Codec, log: seq<Request>, limit: Option<nat>, row: Key)
    requires Asks(limit) && Faithful(codec) && Browsing(codec, log, limit) && ReachedTheEnd(log)
    requires forall k :: 0 <= k < |log| ==> row in Keys(log[k].table)
    ensures exists i :: 0 <= i < |Listed(log)| && Listed(log)[i] == row
                   && forall j :: 0 <= j < |Listed(log)| && Listed(log)[j] == row ==> j == i
  {
    KeyOrder();
    hide Faithful, Browsing, KeyLess, Keys, CoveringRequest;
    BrowsingIsComplete(codec, log, limit, row);
    BrowsingAscends(codec, log, limit);
    ItemsAreListed(log, CoveringRequest(codec, log, row), row);
    var listed := Listed(log);
    var i :| 0 <= i < |listed| && listed[i] == row;
    forall j | 0 <= j < |listed| && listed[j] == row
      ensures j == i
    {
      assert !KeyLess(row, row);
    }
  }

  lemma {:induction false} ItemsAreListed(log: seq<Request>, k: nat, row: Key)
    requires k < |log| && row in log[k].answer.items
    ensures row in Listed(log)
  {
    var last := |log| - 1;
    if k < last { ItemsAreListed(log[..last], k, row); }
  }
}
