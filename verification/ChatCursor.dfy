/** The opaque page position: a row's timestamp and id, as text. */
module ChatCursor {
  import opened Base64Url
  import opened Calendar
  import opened CivilDate
  import opened Digits
  import opened IsoTime
  import opened Prelude
  import opened SprintDates

  /** A string as the bytes of its UTF-8 form. */
  type Bytes = seq<Byte>

  const BAR: Byte := 0x7C

  datatype Position = Position(at: Time, id: Bytes)

  /** The bytes of plain ASCII text, and the text of any bytes that are. */
  function ToBytes(s: string): Bytes {
    seq(|s|, i requires 0 <= i < |s| => if s[i] < '\U{0080}' then s[i] as int else 0)
  }

  function ToText(b: Bytes): string {
    seq(|b|, i requires 0 <= i < |b| => if b[i] < 0x80 then b[i] as char else '?')
  }

  function LastIndexOf(b: Bytes, x: Byte): int {
    if b == [] then -1 else if b[|b| - 1] == x then |b| - 1 else LastIndexOf(b[..|b| - 1], x)
  }

  function EncodeCursor(row: Position): string {
    Base64Url.Encode(ToBytes(ToIsoString(row.at)) + [BAR] + row.id)
  }

  /** The position in decoded bytes, for whatever texts the engine's `new Date` reads. */
  function FromBytes(read: string -> Option<Time>, decoded: Bytes): Option<Position> {
    var separator := LastIndexOf(decoded, BAR);
    BarInside(decoded, BAR);
    if separator < 1 then None
    else
      var at := read(ToText(decoded[..separator]));
      var id := decoded[separator + 1..];
      if at.None? || id == [] then None else Some(Position(at.value, id))
  }

  function DecodeWith(read: string -> Option<Time>, value: string): Option<Position> {
    if value == "" then None else FromBytes(read, Base64Url.Decode(value))
  }

  /** With a reader of the full format only. */
  function DecodeCursor(value: string): Option<Position> {
    DecodeWith(ParseTime, value)
  }

  /** The separator is a vertical bar. */
  lemma BarIsABar()
    ensures ToBytes("|") == [BAR]
  {
  }

  lemma {:induction false} BarInside(b: Bytes, x: Byte)
    ensures -1 <= LastIndexOf(b, x) < |b|
    ensures LastIndexOf(b, x) >= 0 ==> b[LastIndexOf(b, x)] == x
    ensures forall i :: 0 <= i < |b| && i > LastIndexOf(b, x) ==> b[i] != x
  {
    if b != [] && b[|b| - 1] != x {
      BarInside(b[..|b| - 1], x);
    }
  }

  lemma BarIs(b: Bytes, k: nat)
    requires k < |b| && b[k] == BAR && forall i :: k < i < |b| ==> b[i] != BAR
    ensures LastIndexOf(b, BAR) == k
  {
    BarInside(b, BAR);
  }

  /** The separator is found where it was put when what follows has none; otherwise the id holds the last one. */
  lemma BarAfter(text: Bytes, id: Bytes)
    ensures
      LastIndexOf(text + [BAR] + id, BAR) ==
      if BAR in id then |text| + 1 + LastIndexOf(id, BAR) else |text|
  {
    hide LastIndexOf;
    var b := text + [BAR] + id;
    BarInside(id, BAR);
    var last := LastIndexOf(id, BAR);
    forall i | |text| < i < |b|
      ensures b[i] == id[i - |text| - 1]
    {
    }
    BarIs(b, if BAR in id then |text| + 1 + last else |text|);
  }

  predicate IsPlain(s: string) {
    forall i :: 0 <= i < |s| ==> s[i] < '\U{0080}'
  }

  lemma TextReads(s: string)
    requires IsPlain(s)
    ensures ToText(ToBytes(s)) == s
  {
  }

  /** A time's text has 24 characters, or 27 with a signed year. */
  lemma ParsedLength(s: string)
    requires ParseTime(s).Some?
    ensures |s| == if Signed(s) then 27 else 24
  {
    assert Signed(s[..|s| - 14]) == Signed(s);
  }

  lemma TimeIsPlain(t: Time)
    ensures IsPlain(ToIsoString(t))
  {
    hide FromDay, MakeDay, IsLeap, IsoYear, Pad, Padded, Decimal;
    var c, clock := FromDay(t / DAY_MS), ClockOf(t % DAY_MS);
    DayRoundTrip(t / DAY_MS);
    YearInRange(t / DAY_MS);
    AtLeast28(c.year, c.month);
    ClockRoundTrip(t % DAY_MS);
    YearIsPlain(c.year);
    PadReads(c.month + 1);
    PadReads(c.day);
    PadReads(clock.hour);
    PadReads(clock.minute);
    PadReads(clock.second);
    PaddedReads(clock.milli, 3);
  }

  lemma YearIsPlain(year: int)
    requires -999_999 <= year <= 999_999
    ensures IsPlain(IsoYear(year))
  {
    YearTextReads(year);
    var y := IsoYear(year);
    if Signed(y) {
      assert y == [y[0]] + y[1..];
    }
  }

  /** No time's text followed by a bar is the start of another time's text. */
  lemma BarredTimeIsNone(t: Time, s: string)
    requires |s| > |ToIsoString(t)| && s[..|ToIsoString(t)|] == ToIsoString(t)
    ensures ParseTime(s).None?
  {
    hide ParseTime, ToIsoString;
    TimeRoundTrip(t);
    ParsedLength(ToIsoString(t));
    assert s[0] == ToIsoString(t)[0];
    if ParseTime(s).Some? {
      ParsedLength(s);
    }
  }

  /** The bytes up to the id's last bar, where an id with a bar is cut. */
  function UpToLastBar(row: Position): Bytes
    requires BAR in row.id
  {
    BarInside(row.id, BAR);
    ToBytes(ToIsoString(row.at)) + [BAR] + row.id[..LastIndexOf(row.id, BAR)]
  }

  lemma AtSeparator(read: string -> Option<Time>, decoded: Bytes, k: int, head: Bytes, rest: Bytes)
    requires LastIndexOf(decoded, BAR) == k && 1 <= k < |decoded|
    requires decoded[..k] == head && decoded[k + 1..] == rest
    ensures
      var at := read(ToText(head));
      FromBytes(read, decoded) == if at.None? || rest == [] then None else Some(Position(at.value, rest))
  {
    hide LastIndexOf, ToText;
  }

  lemma UsableBytes(read: string -> Option<Time>, text: Bytes, id: Bytes)
    requires text != [] && BAR !in id
    ensures
      var at := read(ToText(text));
      FromBytes(read, text + [BAR] + id) == if at.None? || id == [] then None else Some(Position(at.value, id))
  {
    hide LastIndexOf, ToText, FromBytes;
    var decoded := text + [BAR] + id;
    BarAfter(text, id);
    assert decoded[..|text|] == text;
    assert decoded[|text| + 1..] == id;
    AtSeparator(read, decoded, |text|, text, id);
  }

  lemma BarredBytes(read: string -> Option<Time>, text: Bytes, id: Bytes)
    requires text != [] && BAR in id
    ensures 0 <= LastIndexOf(id, BAR) < |id|
    ensures
      var bar := LastIndexOf(id, BAR);
      var at := read(ToText(text + [BAR] + id[..bar]));
      FromBytes(read, text + [BAR] + id)
      == if at.None? || id[bar + 1..] == [] then None else Some(Position(at.value, id[bar + 1..]))
  {
    hide LastIndexOf, ToText, FromBytes;
    BarInside(id, BAR);
    BarAfter(text, id);
    var bar := LastIndexOf(id, BAR);
    CutAt(text, id, bar);
    AtSeparator(read, text + [BAR] + id, |text| + 1 + bar, text + [BAR] + id[..bar], id[bar + 1..]);
  }

  lemma CutAt(text: Bytes, id: Bytes, bar: nat)
    requires bar < |id|
    ensures
      var all := text + [BAR] + id;
      && all[..|text| + 1 + bar] == text + [BAR] + id[..bar]
      && all[|text| + 1 + bar + 1..] == id[bar + 1..]
  {
  }

  /**
   * What a cursor decodes to, for any reader that reads what `toISOString` writes:
   * its own position when the id is usable, nothing when it is empty, and for an id
   * with a bar whatever the reader makes of the text up to the last bar.
   */
  lemma CursorAnyReader(row: Position, read: string -> Option<Time>)
    requires read(ToIsoString(row.at)) == Some(row.at)
    ensures BAR in row.id ==> 0 <= LastIndexOf(row.id, BAR) < |row.id|
    ensures
      DecodeWith(read, EncodeCursor(row)) ==
      if row.id == [] then None
      else if BAR !in row.id then Some(row)
      else
        var at, rest := read(ToText(UpToLastBar(row))), row.id[LastIndexOf(row.id, BAR) + 1..];
        if at.None? || rest == [] then None else Some(Position(at.value, rest))
  {
    hide Base64Url.Encode, Base64Url.Decode, ParseTime, ToIsoString, LastIndexOf, FromBytes, ToText, ToBytes;
    var time := ToIsoString(row.at);
    var text := ToBytes(time);
    TimeBytes(row.at);
    RoundTrip(text + [BAR] + row.id);
    EncodedIsNotEmpty(text + [BAR] + row.id);
    if BAR in row.id {
      BarredBytes(read, text, row.id);
    } else {
      UsableBytes(read, text, row.id);
    }
  }

  lemma TimeBytes(t: Time)
    ensures ToBytes(ToIsoString(t)) != [] && ToText(ToBytes(ToIsoString(t))) == ToIsoString(t)
    ensures |ToBytes(ToIsoString(t))| == |ToIsoString(t)|
  {
    hide ParseTime, ToIsoString;
    TimeRoundTrip(t);
    ParsedLength(ToIsoString(t));
    TimeIsPlain(t);
    TextReads(ToIsoString(t));
  }

  /**
   * A cursor decodes to the position it was made from exactly if the id is not
   * empty and holds no bar; a reader of the full format refuses any other.
   */
  lemma CursorRoundTrip(row: Position)
    ensures DecodeCursor(EncodeCursor(row)) == if row.id != [] && BAR !in row.id then Some(row) else None
  {
    hide ParseTime, ToIsoString, LastIndexOf, EncodeCursor, DecodeWith, ToText, ToBytes;
    TimeRoundTrip(row.at);
    CursorAnyReader(row, ParseTime);
    if BAR in row.id {
      BarredTextIsRefused(row);
    }
  }

  lemma BarredTextIsRefused(row: Position)
    requires BAR in row.id
    ensures ParseTime(ToText(UpToLastBar(row))).None?
  {
    hide ParseTime, ToIsoString, LastIndexOf, ToText, ToBytes;
    var b, text := UpToLastBar(row), ToBytes(ToIsoString(row.at));
    TimeBytes(row.at);
    assert b[..|text|] == text;
    TextPrefix(b, text);
    BarredTimeIsNone(row.at, ToText(b));
  }

  lemma EncodedIsNotEmpty(b: Bytes)
    requires b != []
    ensures Base64Url.Encode(b) != ""
  {
  }

  lemma TextPrefix(b: Bytes, p: Bytes)
    requires |p| <= |b| && b[..|p|] == p
    ensures |ToText(b)| == |b| && ToText(b)[..|p|] == ToText(p)
  {
    forall i | 0 <= i < |p|
      ensures ToText(b)[i] == ToText(p)[i]
    {
      assert b[i] == b[..|p|][i];
    }
  }

  /** Two positions with usable ids never share a cursor. */
  lemma CursorsAreDistinct(a: Position, b: Position)
    requires a.id != [] && BAR !in a.id && b.id != [] && BAR !in b.id
    requires EncodeCursor(a) == EncodeCursor(b)
    ensures a == b
  {
    hide EncodeCursor, DecodeCursor;
    CursorRoundTrip(a);
    CursorRoundTrip(b);
  }
}
