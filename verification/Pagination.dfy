/**
 Opaque cursors (app/services/pagination.py) and the paging done with them
 (app/services/aggregation.py, app/services/hotel_aggregation.py).

 A cursor is the decimal offset in the URL-safe alphabet of section 5 of RFC 4648, padded as in
 section 4.  `lenient` stands for whatever Python's forgiving base64 and integer parsers, or the
 handler that answers zero, make of a cursor that is not of this form; nothing is assumed of it.
 */
module Pagination {

  import opened Wrappers

  // ------------------------------------------ decimal -------------------------------------------

  function DigitChar(d: nat): char
    requires d < 10
  {
    ('0' as int + d) as char
  }

  function Print(n: nat): string {
    if n < 10 then [DigitChar(n)] else Print(n / 10) + [DigitChar(n % 10)]
  }

  /** The value of a non-empty string of digits. */
  function Parse(s: string): Option<nat> {
    if s == [] || !('0' <= s[|s| - 1] <= '9') then None
    else
      var low := s[|s| - 1] as int - '0' as int;
      if |s| == 1 then Some(low)
      else
        match Parse(s[..|s| - 1])
        case Some(high) => Some(10 * high + low)
        case None => None
  }

  lemma {:induction false} ParsePrint(n: nat)
    ensures Parse(Print(n)) == Some(n)
    ensures forall i :: 0 <= i < |Print(n)| ==> '0' <= Print(n)[i] <= '9'
  {
    if n >= 10 {
      ParsePrint(n / 10);
      assert Print(n)[..|Print(n)| - 1] == Print(n / 10);
    }
  }

  // ------------------------------------------ base64url -----------------------------------------

  type Byte = b: int | 0 <= b < 256

  type Sextet = v: int | 0 <= v < 64

  function SextetChar(v: Sextet): char {
    if v < 26 then ('A' as int + v) as char
    else if v < 52 then ('a' as int + v - 26) as char
    else if v < 62 then ('0' as int + v - 52) as char
    else if v == 62 then '-'
    else '_'
  }

  function CharSextet(c: char): (v: Option<int>)
    ensures v.Some? ==> 0 <= v.value < 64
  {
    if 'A' <= c <= 'Z' then Some(c as int - 'A' as int)
    else if 'a' <= c <= 'z' then Some(c as int - 'a' as int + 26)
    else if '0' <= c <= '9' then Some(c as int - '0' as int + 52)
    else if c == '-' then Some(62)
    else if c == '_' then Some(63)
    else None
  }

  function EncodeBlock(b: seq<Byte>): (s: string)
    requires 1 <= |b| <= 3
    ensures |s| == 4
  {
    if |b| == 1 then [SextetChar(b[0] / 4), SextetChar(b[0] % 4 * 16), '=', '=']
    else if |b| == 2 then
      [SextetChar(b[0] / 4), SextetChar(b[0] % 4 * 16 + b[1] / 16), SextetChar(b[1] % 16 * 4), '=']
    else
      [SextetChar(b[0] / 4), SextetChar(b[0] % 4 * 16 + b[1] / 16),
       SextetChar(b[1] % 16 * 4 + b[2] / 64), SextetChar(b[2] % 64)]
  }

  function Encode64(b: seq<Byte>): string {
    if b == [] then []
    else if |b| <= 3 then EncodeBlock(b)
    else EncodeBlock(b[..3]) + Encode64(b[3..])
  }

  /** Decodes one block of four characters; padding is allowed in the last block only. */
  function DecodeBlock(s: string, last: bool): Option<seq<Byte>>
    requires |s| == 4
  {
    match (CharSextet(s[0]), CharSextet(s[1]), CharSextet(s[2]), CharSextet(s[3]))
    case (Some(p), Some(q), Some(r), Some(t)) => Some([p * 4 + q / 16, q % 16 * 16 + r / 4, r % 4 * 64 + t])
    case (Some(p), Some(q), Some(r), None) =>
      if last && s[3] == '=' then Some([p * 4 + q / 16, q % 16 * 16 + r / 4]) else None
    case (Some(p), Some(q), None, None) =>
      if last && s[2] == '=' && s[3] == '=' then Some([p * 4 + q / 16]) else None
    case _ => None
  }

  function Decode64(s: string): Option<seq<Byte>> {
    if s == [] then Some([])
    else if |s| < 4 then None
    else
      match (DecodeBlock(s[..4], |s| == 4), Decode64(s[4..]))
      case (Some(block), Some(rest)) => Some(block + rest)
      case _ => None
  }

  lemma SextetRoundTrip(v: Sextet)
    ensures CharSextet(SextetChar(v)) == Some(v)
    ensures CharSextet('=') == None
  {
  }

  lemma OneByteRoundTrip(x: Byte)
    ensures DecodeBlock(EncodeBlock([x]), true) == Some([x])
  {
    hide SextetChar, CharSextet;
    SextetRoundTrip(x / 4);
    SextetRoundTrip(x % 4 * 16);
  }

  lemma TwoByteRoundTrip(x: Byte, y: Byte)
    ensures DecodeBlock(EncodeBlock([x, y]), true) == Some([x, y])
  {
    hide SextetChar, CharSextet;
    var q := x % 4 * 16 + y / 16;
    SextetRoundTrip(x / 4);
    SextetRoundTrip(q);
    SextetRoundTrip(y % 16 * 4);
    assert q / 16 == x % 4 && q % 16 == y / 16;
  }

  lemma ThreeByteRoundTrip(x: Byte, y: Byte, z: Byte, last: bool)
    ensures DecodeBlock(EncodeBlock([x, y, z]), last) == Some([x, y, z])
  {
    hide SextetChar, CharSextet;
    var q, r := x % 4 * 16 + y / 16, y % 16 * 4 + z / 64;
    SextetRoundTrip(x / 4);
    SextetRoundTrip(q);
    SextetRoundTrip(r);
    SextetRoundTrip(z % 64);
    assert q / 16 == x % 4 && q % 16 == y / 16;
    assert r / 4 == y % 16 && r % 4 == z / 64;
  }

  /** All three padding cases. */
  lemma BlockRoundTrip(b: seq<Byte>, last: bool)
    requires |b| == 3 || (last && 1 <= |b| < 3)
    ensures DecodeBlock(EncodeBlock(b), last) == Some(b)
  {
    hide DecodeBlock, EncodeBlock;
    if |b| == 1 {
      OneByteRoundTrip(b[0]);
      assert b == [b[0]];
    } else if |b| == 2 {
      TwoByteRoundTrip(b[0], b[1]);
      assert b == [b[0], b[1]];
    } else {
      ThreeByteRoundTrip(b[0], b[1], b[2], last);
      assert b == [b[0], b[1], b[2]];
    }
  }

  lemma {:induction false} Base64RoundTrip(b: seq<Byte>)
    ensures Decode64(Encode64(b)) == Some(b)
    ensures b != [] ==> |Encode64(b)| >= 4
  {
    if b != [] {
      var s := Encode64(b);
      if |b| <= 3 {
        BlockRoundTrip(b, true);
        assert s[..4] == s && s[4..] == [];
        assert b + [] == b;
      } else {
        Base64RoundTrip(b[3..]);
        BlockRoundTrip(b[..3], false);
        assert s[..4] == EncodeBlock(b[..3]) && s[4..] == Encode64(b[3..]);
        assert b[..3] + b[3..] == b;
      }
    }
  }

  // ------------------------------------------ cursors -------------------------------------------

  predicate Ascii(s: string) { forall i :: 0 <= i < |s| ==> s[i] as int < 128 }

  function ToBytes(s: string): seq<Byte>
    requires Ascii(s)
  {
    seq(|s|, i requires 0 <= i < |s| => s[i] as int)
  }

  function FromBytes(b: seq<Byte>): string {
    seq(|b|, i requires 0 <= i < |b| => b[i] as char)
  }

  function EncodeCursor(offset: nat): string {
    ParsePrint(offset);
    Encode64(ToBytes(Print(offset)))
  }

  /** The offset of a cursor of the proper form. */
  function ProperOffset(cursor: string): Option<nat> {
    match Decode64(cursor)
    case Some(b) => Parse(FromBytes(b))
    case None => None
  }

  function DecodeCursor(cursor: Option<string>, lenient: string -> int): nat {
    if cursor.None? || cursor.value == "" then 0
    else
      match ProperOffset(cursor.value)
      case Some(offset) => offset
      case None => if lenient(cursor.value) > 0 then lenient(cursor.value) else 0
  }

  lemma CursorRoundTrip(offset: nat, lenient: string -> int)
    ensures DecodeCursor(Some(EncodeCursor(offset)), lenient) == offset
  {
    var text := Print(offset);
    ParsePrint(offset);
    Base64RoundTrip(ToBytes(text));
    assert FromBytes(ToBytes(text)) == text;
  }

  /** Cursors as they look on the wire, in all three padding cases, and the cursors of a first page. */
  lemma CursorSamples(lenient: string -> int)
    ensures EncodeCursor(0) == "MA==" && EncodeCursor(20) == "MjA=" && EncodeCursor(100) == "MTAw"
    ensures DecodeCursor(None, lenient) == DecodeCursor(Some(""), lenient) == 0
  {
    SampleDigits();
    hide Print, Parse;
    assert ToBytes("0") == [48] && ToBytes("20") == [50, 48] && ToBytes("100") == [49, 48, 48];
    hide ToBytes, DecodeCursor;
    SampleBlocks();
  }

  lemma SampleDigits()
    ensures Print(0) == "0" && Print(20) == "20" && Print(100) == "100"
  {
    assert Print(2) == "2" && Print(1) == "1" && Print(10) == "10";
  }

  lemma SampleBlocks()
    ensures Encode64([48]) == "MA==" && Encode64([50, 48]) == "MjA=" && Encode64([49, 48, 48]) == "MTAw"
  {
  }

  // ------------------------------------------ paging --------------------------------------------

  type PageSize = n: nat | n >= 1 witness 1

  datatype Page<T> = Page(items: seq<T>, nextCursor: Option<string>, hasMore: bool)

  /** `ordered[offset : offset + limit]`, which never leaves the list. */
  function Slice<T>(ordered: seq<T>, offset: nat, limit: nat): seq<T> {
    if offset >= |ordered| then []
    else if offset + limit >= |ordered| then ordered[offset..]
    else ordered[offset..offset + limit]
  }

  function PageOf<T>(ordered: seq<T>, limit: nat, cursor: Option<string>, lenient: string -> int): Page<T> {
    var offset := DecodeCursor(cursor, lenient);
    var hasMore := offset + limit < |ordered|;
    Page(Slice(ordered, offset, limit), if hasMore then Some(EncodeCursor(offset + limit)) else None, hasMore)
  }

  /** A page says that more follows exactly when it hands out a cursor; then it is full, and the page of any
      size at that cursor has items.  The page that says nothing follows reaches the end. */
  lemma MoreMeansMore<T>(ordered: seq<T>, limit: PageSize, cursor: Option<string>, next: PageSize,
                        lenient: string -> int)
    ensures
      var page := PageOf(ordered, limit, cursor, lenient);
      && (page.hasMore <==> page.nextCursor.Some?)
      && (page.hasMore ==> |page.items| == limit && PageOf(ordered, next, page.nextCursor, lenient).items != [])
      && (!page.hasMore ==> DecodeCursor(cursor, lenient) + |page.items| >= |ordered|)
  {
    CursorRoundTrip(DecodeCursor(cursor, lenient) + limit, lenient);
  }

  /** The pages a client sees that starts at `cursor` and follows `next_cursor` to the end, asking
      for `limits(k)` items in its k-th request. */
  function Walk<T>(ordered: seq<T>, cursor: Option<string>, limits: nat -> PageSize, k: nat,
                   lenient: string -> int): seq<seq<T>>
    decreases |ordered| - DecodeCursor(cursor, lenient)
  {
    var page := PageOf(ordered, limits(k), cursor, lenient);
    if page.nextCursor.None? then [page.items]
    else
      CursorRoundTrip(DecodeCursor(cursor, lenient) + limits(k), lenient);
      [page.items] + Walk(ordered, page.nextCursor, limits, k + 1, lenient)
  }

  function Flatten<T>(pages: seq<seq<T>>): seq<T> {
    if pages == [] then [] else pages[0] + Flatten(pages[1..])
  }

  /** The same walk on bare offsets. */
  function OffsetWalk<T>(ordered: seq<T>, offset: nat, limits: nat -> PageSize, k: nat): seq<seq<T>>
    decreases |ordered| - offset
  {
    [Slice(ordered, offset, limits(k))]
    + if offset + limits(k) < |ordered| then OffsetWalk(ordered, offset + limits(k), limits, k + 1) else []
  }

  lemma {:induction false} CursorsCarryOffsets<T>(ordered: seq<T>, cursor: Option<string>, limits: nat -> PageSize,
                                                  k: nat, lenient: string -> int)
    ensures Walk(ordered, cursor, limits, k, lenient) == OffsetWalk(ordered, DecodeCursor(cursor, lenient), limits, k)
    decreases |ordered| - DecodeCursor(cursor, lenient)
  {
    var page := PageOf(ordered, limits(k), cursor, lenient);
    if page.nextCursor.Some? {
      CursorRoundTrip(DecodeCursor(cursor, lenient) + limits(k), lenient);
      CursorsCarryOffsets(ordered, page.nextCursor, limits, k + 1, lenient);
    }
  }

  lemma FlattenCons<T>(page: seq<T>, pages: seq<seq<T>>)
    ensures Flatten([page] + pages) == page + Flatten(pages)
  {
    assert ([page] + pages)[1..] == pages;
  }

  lemma {:induction false} OffsetWalkTiles<T>(ordered: seq<T>, offset: nat, limits: nat -> PageSize, k: nat)
    requires offset <= |ordered|
    ensures Flatten(OffsetWalk(ordered, offset, limits, k)) == ordered[offset..]
    decreases |ordered| - offset
  {
    var page, next := Slice(ordered, offset, limits(k)), offset + limits(k);
    if next < |ordered| {
      assert ordered[offset..] == page + ordered[next..];
      OffsetWalkTiles(ordered, next, limits, k + 1);
      FlattenCons(page, OffsetWalk(ordered, next, limits, k + 1));
    } else {
      FlattenCons(page, []);
      assert page + [] == page;
    }
  }

  /** With unchanged results, the walk from the first page visits everything exactly once and in
      order, whatever page sizes are asked for on the way. */
  lemma WalkTilesTheResult<T>(ordered: seq<T>, limits: nat -> PageSize, lenient: string -> int)
    ensures Flatten(Walk(ordered, None, limits, 0, lenient)) == ordered
  {
    CursorsCarryOffsets(ordered, None, limits, 0, lenient);
    OffsetWalkTiles(ordered, 0, limits, 0);
    assert ordered[0..] == ordered;
  }

  /** `n` is `max(1, ceil(items / limit))`. */
  predicate IsPageCount(n: nat, items: nat, limit: PageSize) {
    n >= 1 && items <= n * limit && (n == 1 || (n - 1) * limit < items)
  }

  lemma OneMorePage(n: nat, items: nat, limit: PageSize)
    requires items > limit && IsPageCount(n, items - limit, limit)
    ensures IsPageCount(n + 1, items, limit)
  {
    assert (n + 1) * limit == n * limit + limit;
    if n > 1 {
      assert n * limit == (n - 1) * limit + limit;
    }
  }

  lemma {:induction false} OffsetWalkLength<T>(ordered: seq<T>, offset: nat, limit: PageSize, limits: nat -> PageSize,
                                               k: nat)
    requires offset <= |ordered|
    requires forall i: nat :: limits(i) == limit
    ensures IsPageCount(|OffsetWalk(ordered, offset, limits, k)|, |ordered| - offset, limit)
    decreases |ordered| - offset
  {
    if offset + limits(k) < |ordered| {
      OffsetWalkLength(ordered, offset + limit, limit, limits, k + 1);
      OneMorePage(|OffsetWalk(ordered, offset + limit, limits, k + 1)|, |ordered| - offset, limit);
    }
  }

  /** With a fixed limit the walk takes `max(1, ceil(total / limit))` pages. */
  lemma WalkLength<T>(ordered: seq<T>, limit: PageSize, limits: nat -> PageSize, lenient: string -> int)
    requires forall i: nat :: limits(i) == limit
    ensures IsPageCount(|Walk(ordered, None, limits, 0, lenient)|, |ordered|, limit)
  {
    CursorsCarryOffsets(ordered, None, limits, 0, lenient);
    OffsetWalkLength(ordered, 0, limit, limits, 0);
  }
}
