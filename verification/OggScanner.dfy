/**
The resynchronising scanner over Ogg pages that finds the duration of an Opus
file. The page layout is that of section 6 of RFC 3533.
*/
module OggScanner {
  import opened Prelude

  const HEADER := 27
  const MAGIC: seq<byte> := [0x4F, 0x67, 0x67, 0x53]   // "OggS"
  const SAMPLE_RATE := 48000.0

  /** binary.LittleEndian */
  function LittleEndian(bytes: seq<byte>): nat {
    if bytes == [] then 0 else bytes[0] as int + 256 * LittleEndian(bytes[1..])
  }

  const TWO63 := 0x8000_0000_0000_0000
  const TWO64 := 0x1_0000_0000_0000_0000

  /** int64(uint64) */
  function Signed(v: int): int {
    if v < TWO63 then v else v - TWO64
  }

  function Sum(bytes: seq<byte>): nat {
    if bytes == [] then 0 else bytes[0] as int + Sum(bytes[1..])
  }

  function Max(a: int, b: int): int {
    if b > a then b else a
  }

  // ---------- the reader and the loop ----------

  /** How long a device lasts: `calls` is the number of calls that succeed before one fails, and
      `full` the number of plain reads that fill their buffer, or reach the end of the data, before
      one comes short. */
  datatype Device = Device(calls: nat, full: nat)

  class Reader {
    const data: seq<byte>
    var pos: nat
    var device: Device

    constructor (data: seq<byte>, device: Device)
      ensures this.data == data && pos == 0 && this.device == device
    {
      this.data, this.device := data, device;
      this.pos := 0;
    }

    /** One plain read, which may come short. */
    method Read(n: nat) returns (buf: seq<byte>, ok: bool)
      requires n > 0
      modifies this
      ensures ok == (old(device).calls > 0) && (!ok ==> buf == [])
      ensures ok && old(device).full == 0 ==> |buf| < n
      ensures ok && old(device).full > 0 ==>
        && device == Device(old(device).calls - 1, old(device).full - 1)
        && buf == Chunk(data, old(pos), n) && pos == old(pos) + |buf|
    {
      buf, ok := [], device.calls > 0;
      if ok && device.full > 0 {
        buf := Chunk(data, pos, n);
        pos, device := pos + |buf|, Device(device.calls - 1, device.full - 1);
      }
    }

    /** io.ReadFull, which repeats short reads. */
    method ReadFull(n: nat) returns (buf: seq<byte>, ok: bool)
      modifies this
      ensures ok == (old(device).calls > 0) && (!ok ==> buf == [])
      ensures ok ==> device == old(device).(calls := old(device).calls - 1)
      ensures ok ==> buf == Chunk(data, old(pos), n) && pos == old(pos) + |buf|
    {
      buf, ok := [], device.calls > 0;
      if ok {
        buf := Chunk(data, pos, n);
        pos, device := pos + |buf|, device.(calls := device.calls - 1);
      }
    }

    /** Seek relative to the current position; a position past the end is allowed. */
    method Skip(offset: int) returns (ok: bool)
      requires pos + offset >= 0
      modifies this
      ensures ok == (old(device).calls > 0)
      ensures ok ==> pos == old(pos) + offset && device == old(device).(calls := old(device).calls - 1)
    {
      ok := device.calls > 0;
      if ok {
        pos, device := pos + offset, device.(calls := device.calls - 1);
      }
    }

    /** Seek to the start. */
    method Rewind() returns (ok: bool)
      modifies this
      ensures ok == (old(device).calls > 0)
      ensures ok ==> pos == 0 && device == old(device).(calls := old(device).calls - 1)
    {
      ok := device.calls > 0;
      if ok {
        pos, device := 0, device.(calls := device.calls - 1);
      }
    }
  }

  /** The next n bytes, or what is left of the data. */
  function Chunk(data: seq<byte>, pos: nat, n: nat): seq<byte> {
    if pos >= |data| then [] else if pos + n <= |data| then data[pos..pos + n] else data[pos..]
  }

  predicate MagicAt(data: seq<byte>, pos: nat) {
    pos + 4 <= |data| && data[pos..pos + 4] == MAGIC
  }

  function GranuleAt(data: seq<byte>, pos: nat): int
    requires pos + HEADER <= |data|
  {
    Signed(LittleEndian(data[pos + 6..pos + 14]))
  }

  /** The number of segments announced by the header at `pos`. */
  function Lacing(data: seq<byte>, pos: nat): int
    requires pos + HEADER <= |data|
  {
    data[pos + 26] as int
  }

  predicate TableComplete(data: seq<byte>, pos: nat)
    requires pos + HEADER <= |data|
  {
    pos + HEADER + Lacing(data, pos) <= |data|
  }

  /** The first offset after the page whose header starts at `pos`. */
  function PageEnd(data: seq<byte>, pos: nat): nat
    requires pos + HEADER <= |data| && TableComplete(data, pos)
  {
    pos + HEADER + Lacing(data, pos) + Sum(data[pos + HEADER..pos + HEADER + Lacing(data, pos)])
  }

  /** The offsets at which the scan recognises a page, starting from `pos`. */
  function Visits(data: seq<byte>, pos: nat): seq<nat>
    decreases if pos <= |data| then |data| - pos else 0
  {
    if pos + HEADER > |data| then []
    else if !MagicAt(data, pos) then Visits(data, pos + 1)
    else if !TableComplete(data, pos) then [pos]
    else [pos] + Visits(data, PageEnd(data, pos))
  }

  /** The largest granule position among the recognised pages, at least `least`. */
  function Scan(data: seq<byte>, pos: nat, least: int): int
    decreases if pos <= |data| then |data| - pos else 0
  {
    if pos + HEADER > |data| then least
    else if !MagicAt(data, pos) then Scan(data, pos + 1, least)
    else if !TableComplete(data, pos) then Max(least, GranuleAt(data, pos))
    else Scan(data, PageEnd(data, pos), Max(least, GranuleAt(data, pos)))
  }

  /** Reading an empty segment table takes no call. */
  function TableCalls(segments: int): nat { if segments > 0 then 1 else 0 }

  /** What a scan leads to: the largest granule position or an error, and the offsets at which it
      recognised a page. */
  datatype Outcome = Outcome(total: Option<int>, pages: seq<nat>)

  function Found(pos: nat, rest: Outcome): Outcome { rest.(pages := [pos] + rest.pages) }

  /** The same with a device that does not last: a failing header read is an error, a short one or
      any other failing call ends the scan with what was found. */
  function ScanFor(data: seq<byte>, pos: nat, least: int, d: Device): Outcome
    decreases d.calls
  {
    if d.calls == 0 then Outcome(None, [])
    else if d.full == 0 || pos + HEADER > |data| then Outcome(Some(least), [])
    else if !MagicAt(data, pos) then
      if d.calls == 1 then Outcome(Some(least), []) else ScanFor(data, pos + 1, least, Device(d.calls - 2, d.full - 1))
    else
      var best, spent := Max(least, GranuleAt(data, pos)), 1 + TableCalls(Lacing(data, pos));
      if d.calls <= spent || !TableComplete(data, pos) then Outcome(Some(best), [pos])
      else Found(pos, ScanFor(data, PageEnd(data, pos), best, Device(d.calls - spent - 1, d.full - 1)))
  }

  /** The scan continues one byte further when no page starts here. */
  lemma ScanJunk(data: seq<byte>, pos: nat, least: int)
    requires pos + HEADER <= |data| && !MagicAt(data, pos)
    ensures Scan(data, pos, least) == Scan(data, pos + 1, least)
  {
  }

  /** The scan continues after a page, or ends in its segment table. */
  lemma ScanPage(data: seq<byte>, pos: nat, least: int)
    requires pos + HEADER <= |data| && MagicAt(data, pos)
    ensures var best := Max(least, GranuleAt(data, pos));
      Scan(data, pos, least) == if TableComplete(data, pos) then Scan(data, PageEnd(data, pos), best) else best
  {
  }

  method SegmentSum(table: seq<byte>) returns (size: nat)
    ensures size == Sum(table)
  {
    size := 0;
    for i := 0 to |table|
      invariant size + Sum(table[i..]) == Sum(table)
    {
      assert table[i..][1..] == table[i + 1..];
      size := size + table[i] as int;
    }
  }

  /** The sum of the segment sizes, however the table is split. */
  lemma {:induction false} SumAdds(a: seq<byte>, b: seq<byte>)
    ensures Sum(a + b) == Sum(a) + Sum(b) && Sum([]) == 0
    ensures forall x: byte :: Sum([x]) == x as int
    decreases |a|
  {
    assert forall x: byte :: [x][1..] == [];
    if a == [] {
      assert a + b == b;
    } else {
      SumAdds(a[1..], b);
      assert (a + b)[1..] == a[1..] + b;
    }
  }

  lemma SliceOfSlice(data: seq<byte>, pos: nat, n: nat, a: nat, b: nat)
    requires a <= b <= n && pos + n <= |data|
    ensures data[pos..pos + n][a..b] == data[pos + a..pos + b]
  {
    var slice := data[pos..pos + n];
    forall i | 0 <= i < b - a ensures slice[a..b][i] == data[pos + a..pos + b][i] {
      assert slice[a + i] == data[pos + a + i];
    }
    assert |slice[a..b]| == |data[pos + a..pos + b]|;
  }

  /** What the header bytes just read say, in terms of the whole data. */
  lemma HeaderFields(data: seq<byte>, pos: nat)
    requires pos + HEADER <= |data|
    ensures var buf := data[pos..pos + HEADER];
      && (buf[..4] == MAGIC <==> MagicAt(data, pos))
      && Signed(LittleEndian(buf[6..14])) == GranuleAt(data, pos)
      && buf[26] as int == Lacing(data, pos)
  {
    SliceOfSlice(data, pos, HEADER, 0, 4);
    SliceOfSlice(data, pos, HEADER, 6, 14);
  }

  /** What the scanner takes from 27 header bytes. */
  datatype Header = Header(isPage: bool, granule: int, segments: nat)

  predicate HeaderAt(data: seq<byte>, pos: nat, h: Header) {
    pos + HEADER <= |data| && h.isPage == MagicAt(data, pos) && h.granule == GranuleAt(data, pos) && h.segments == Lacing(data, pos)
  }

  /** Read a header; too few bytes are none. */
  method ReadHeader(r: Reader) returns (ok: bool, complete: bool, h: Header)
    modifies r
    ensures ok == (old(r.device).calls > 0)
    ensures ok ==> complete == (old(r.device).full > 0 && old(r.pos) + HEADER <= |r.data|)
    ensures ok && complete ==>
      && HeaderAt(r.data, old(r.pos), h) && r.pos == old(r.pos) + HEADER
      && r.device == Device(old(r.device).calls - 1, old(r.device).full - 1)
  {
    ghost var pos := r.pos;
    var buf;
    buf, ok := r.Read(HEADER);
    complete, h := |buf| == HEADER, Header(false, 0, 0);
    if complete {
      HeaderFields(r.data, pos);
      h := Header(buf[..4] == MAGIC, Signed(LittleEndian(buf[6..14])), buf[26] as int);
    }
  }

  /** Read the segment table at the current position and skip the segments it announces. */
  method SkipSegments(r: Reader, segments: nat) returns (ok: bool)
    requires r.pos <= |r.data|
    modifies r
    ensures ok <==> old(r.pos) + segments <= |r.data| && old(r.device).calls > TableCalls(segments)
    ensures ok ==> r.pos == old(r.pos) + segments + Sum(r.data[old(r.pos)..old(r.pos) + segments])
    ensures ok ==> r.device == old(r.device).(calls := old(r.device).calls - TableCalls(segments) - 1)
  {
    var table: seq<byte> := [];
    if segments > 0 {
      table, ok := r.ReadFull(segments);
      if !ok || |table| < segments {
        return false;
      }
    }
    assert table == r.data[old(r.pos)..old(r.pos) + segments];
    var size := SegmentSum(table);
    ok := r.Skip(size);
  }

  datatype Progress = More | Done | Failed

  /** What the loop will have led to, given what it has found and how it stands. */
  function Outlook(data: seq<byte>, pos: nat, d: Device, total: int, pages: seq<nat>, progress: Progress): Outcome {
    match progress
    case More => var rest := ScanFor(data, pos, total, d); rest.(pages := pages + rest.pages)
    case Done => Outcome(Some(total), pages)
    case Failed => Outcome(None, pages)
  }

  /** One turn of the loop: the scan is over, or failed, or goes on further ahead. */
  method Turn(r: Reader, total: int, ghost pages: seq<nat>) returns (total': int, progress: Progress, ghost pages': seq<nat>)
    modifies r
    ensures progress.More? ==> r.pos > old(r.pos) && r.device.calls < old(r.device).calls
    ensures Outlook(r.data, r.pos, r.device, total', pages', progress)
         == Outlook(r.data, old(r.pos), old(r.device), total, pages, More)
  {
    ghost var pos := r.pos;
    total', progress, pages' := total, Done, pages;
    var ok, complete, h := ReadHeader(r);
    if !ok {
      progress := Failed;
      return;
    }
    if !complete {
      return;
    }
    if !h.isPage {
      ok := r.Skip(-26);
      progress := if ok then More else Done;
      return;
    }
    pages' := pages + [pos];
    if h.granule > total' {
      total' := h.granule;
    }
    ok := SkipSegments(r, h.segments);
    progress := if ok then More else Done;
    if ok {
      PagesRegroup(pages, pos, ScanFor(r.data, r.pos, total', r.device));
    }
  }

  lemma PagesRegroup(pages: seq<nat>, pos: nat, rest: Outcome)
    ensures pages + Found(pos, rest).pages == pages + [pos] + rest.pages
  {
  }

  /** What the whole function returns, and where it recognises pages. */
  function Duration(data: seq<byte>, d: Device): (Option<real>, seq<nat>) {
    if d.calls == 0 then (None, [])
    else
      var o := ScanFor(data, 0, 0, d.(calls := d.calls - 1));
      (if o.total.None? then None else Some(o.total.value as real / SAMPLE_RATE), o.pages)
  }

  /** getOpusDuration. `pages` are the offsets at which the loop recognised a page. */
  method OpusDuration(r: Reader) returns (duration: Option<real>, ghost pages: seq<nat>)
    modifies r
    ensures (duration, pages) == Duration(r.data, old(r.device))
  {
    pages := [];
    var ok := r.Rewind();
    if !ok {
      return None, pages;
    }
    ghost var result := ScanFor(r.data, 0, 0, r.device);
    var total, progress := 0, More;
    while progress.More?
      invariant result == Outlook(r.data, r.pos, r.device, total, pages, progress)
      decreases progress.More?, r.device.calls
    {
      total, progress, pages := Turn(r, total, pages);
    }
    return if progress.Done? then Some(total as real / SAMPLE_RATE) else None, pages;
  }

  // ---------- devices that do not last ----------

  lemma {:induction false} ScanAtLeast(data: seq<byte>, pos: nat, least: int)
    ensures Scan(data, pos, least) >= least
    decreases if pos <= |data| then |data| - pos else 0
  {
    if pos + HEADER > |data| {
    } else if !MagicAt(data, pos) {
      ScanAtLeast(data, pos + 1, least);
    } else if TableComplete(data, pos) {
      ScanAtLeast(data, PageEnd(data, pos), Max(least, GranuleAt(data, pos)));
    }
  }

  lemma VisitsPage(data: seq<byte>, pos: nat)
    requires pos + HEADER <= |data| && MagicAt(data, pos)
    ensures Visits(data, pos) == if TableComplete(data, pos) then [pos] + Visits(data, PageEnd(data, pos)) else [pos]
  {
  }

  lemma VisitsJunk(data: seq<byte>, pos: nat)
    requires pos + HEADER <= |data| && !MagicAt(data, pos)
    ensures Visits(data, pos) == Visits(data, pos + 1)
  {
  }

  /** The pages are the first ones of the whole scan, and the total is at most its total. */
  predicate Within(o: Outcome, data: seq<byte>, pos: nat, least: int) {
    && o.pages <= Visits(data, pos)
    && (o.total.Some? ==> least <= o.total.value <= Scan(data, pos, least))
  }

  lemma StopIsWithin(data: seq<byte>, pos: nat, least: int)
    ensures Within(Outcome(None, []), data, pos, least) && Within(Outcome(Some(least), []), data, pos, least)
  {
    ScanAtLeast(data, pos, least);
  }

  lemma JunkIsWithin(o: Outcome, data: seq<byte>, pos: nat, least: int)
    requires pos + HEADER <= |data| && !MagicAt(data, pos) && Within(o, data, pos + 1, least)
    ensures Within(o, data, pos, least)
  {
    ScanJunk(data, pos, least);
    VisitsJunk(data, pos);
  }

  lemma CutPageIsWithin(data: seq<byte>, pos: nat, least: int)
    requires pos + HEADER <= |data| && MagicAt(data, pos)
    ensures Within(Outcome(Some(Max(least, GranuleAt(data, pos))), [pos]), data, pos, least)
  {
    ScanPage(data, pos, least);
    VisitsPage(data, pos);
    if TableComplete(data, pos) {
      ScanAtLeast(data, PageEnd(data, pos), Max(least, GranuleAt(data, pos)));
    }
  }

  lemma PageIsWithin(rest: Outcome, data: seq<byte>, pos: nat, least: int)
    requires pos + HEADER <= |data| && MagicAt(data, pos) && TableComplete(data, pos)
    requires Within(rest, data, PageEnd(data, pos), Max(least, GranuleAt(data, pos)))
    ensures Within(Found(pos, rest), data, pos, least)
  {
    ScanPage(data, pos, least);
    VisitsPage(data, pos);
  }

  /** Whatever call fails or comes short, the pages recognised are the first ones, and a duration
      that is reported is at most the real one. */
  lemma {:induction false} FailureNeverLengthens(data: seq<byte>, pos: nat, least: int, d: Device)
    ensures Within(ScanFor(data, pos, least, d), data, pos, least)
    decreases d.calls
  {
    StopIsWithin(data, pos, least);
    if d.calls > 0 && d.full > 0 && pos + HEADER <= |data| {
      if !MagicAt(data, pos) {
        if d.calls > 1 {
          var d' := Device(d.calls - 2, d.full - 1);
          FailureNeverLengthens(data, pos + 1, least, d');
          JunkIsWithin(ScanFor(data, pos + 1, least, d'), data, pos, least);
        }
      } else {
        var best, spent := Max(least, GranuleAt(data, pos)), 1 + TableCalls(Lacing(data, pos));
        CutPageIsWithin(data, pos, least);
        if TableComplete(data, pos) && d.calls > spent {
          var d' := Device(d.calls - spent - 1, d.full - 1);
          FailureNeverLengthens(data, PageEnd(data, pos), best, d');
          PageIsWithin(ScanFor(data, PageEnd(data, pos), best, d'), data, pos, least);
        }
      }
    }
  }

  /** Three calls and one plain read for each byte that is left, and one more. */
  predicate Lasts(d: Device, left: int) {
    d.calls > 0 && d.full > 0 && d.calls > 3 * left && d.full > left
  }

  /** Everything the scan finds. */
  function Whole(data: seq<byte>, pos: nat, least: int): Outcome {
    Outcome(Some(Scan(data, pos, least)), Visits(data, pos))
  }

  lemma WholeJunk(data: seq<byte>, pos: nat, least: int)
    requires pos + HEADER <= |data| && !MagicAt(data, pos)
    ensures Whole(data, pos, least) == Whole(data, pos + 1, least)
  {
    ScanJunk(data, pos, least);
    VisitsJunk(data, pos);
  }

  lemma WholePage(data: seq<byte>, pos: nat, least: int)
    requires pos + HEADER <= |data| && MagicAt(data, pos)
    ensures var best := Max(least, GranuleAt(data, pos));
      Whole(data, pos, least) ==
        if TableComplete(data, pos) then Found(pos, Whole(data, PageEnd(data, pos), best)) else Outcome(Some(best), [pos])
  {
    ScanPage(data, pos, least);
    VisitsPage(data, pos);
  }

  lemma JunkTurn(data: seq<byte>, pos: nat, least: int, d: Device)
    requires d.calls > 1 && d.full > 0 && pos + HEADER <= |data| && !MagicAt(data, pos)
    ensures ScanFor(data, pos, least, d) == ScanFor(data, pos + 1, least, Device(d.calls - 2, d.full - 1))
  {
  }

  lemma PageTurn(data: seq<byte>, pos: nat, least: int, d: Device)
    requires d.calls > 2 && d.full > 0 && pos + HEADER <= |data| && MagicAt(data, pos)
    ensures var best, spent := Max(least, GranuleAt(data, pos)), 1 + TableCalls(Lacing(data, pos));
      ScanFor(data, pos, least, d) ==
        if TableComplete(data, pos) then Found(pos, ScanFor(data, PageEnd(data, pos), best, Device(d.calls - spent - 1, d.full - 1)))
        else Outcome(Some(best), [pos])
  {
  }

  /** A device that lasts for the data shows the whole scan. */
  lemma {:induction false} EnoughCalls(data: seq<byte>, pos: nat, least: int, d: Device)
    requires Lasts(d, |data| - pos)
    ensures ScanFor(data, pos, least, d) == Whole(data, pos, least)
    decreases d.calls
  {
    if pos + HEADER <= |data| {
      if !MagicAt(data, pos) {
        WholeJunk(data, pos, least);
        JunkTurn(data, pos, least, d);
        EnoughCalls(data, pos + 1, least, Device(d.calls - 2, d.full - 1));
      } else {
        WholePage(data, pos, least);
        PageTurn(data, pos, least, d);
        if TableComplete(data, pos) {
          var spent := 1 + TableCalls(Lacing(data, pos));
          EnoughCalls(data, PageEnd(data, pos), Max(least, GranuleAt(data, pos)), Device(d.calls - spent - 1, d.full - 1));
        }
      }
    }
  }

  // ---------- well-formed streams ----------

  /** A page: version and header type, the eight bytes of the granule position, serial number with
      sequence number and checksum, the segment table and the segments. */
  datatype Page = Page(kind: seq<byte>, position: seq<byte>, ids: seq<byte>, lacing: seq<byte>, body: seq<byte>)
  {
    predicate WellFormed() {
      && |kind| == 2 && |position| == 8 && |ids| == 12
      && |lacing| <= 255 && |body| == Sum(lacing)
    }

    function Granule(): int { Signed(LittleEndian(position)) }

    function Size(): nat { HEADER + |lacing| + |body| }

    function Encode(): (bytes: seq<byte>)
      requires WellFormed()
      ensures |bytes| == Size()
    {
      MAGIC + kind + position + ids + [|lacing| as byte] + lacing + body
    }
  }

  function Unsigned(v: int): nat
    requires -TWO63 <= v < TWO63
  {
    if v >= 0 then v else v + TWO64
  }

  /** The little-endian bytes of a number. */
  function Bytes(v: nat, n: nat): (r: seq<byte>)
    ensures |r| == n
  {
    if n == 0 then [] else [(v % 256) as byte] + Bytes(v / 256, n - 1)
  }

  function Pow256(n: nat): nat {
    if n == 0 then 1 else 256 * Pow256(n - 1)
  }

  lemma {:induction false} BytesRoundTrip(v: nat, n: nat)
    requires v < Pow256(n)
    ensures LittleEndian(Bytes(v, n)) == v
    decreases n
  {
    if n > 0 {
      BytesRoundTrip(v / 256, n - 1);
      assert Bytes(v, n)[1..] == Bytes(v / 256, n - 1);
    }
  }

  /** Bytes in which no capture pattern starts, and a page after them. */
  datatype Part = Part(junk: seq<byte>, page: Page)

  predicate IsJunk(bytes: seq<byte>) {
    forall i :: 0 <= i < |bytes| ==> !MagicAt(bytes, i)
  }

  predicate WellFormedParts(parts: seq<Part>) {
    forall p :: p in parts ==> p.page.WellFormed() && IsJunk(p.junk)
  }

  /** A stream: pages with junk before, between and after them. */
  function EncodeAll(parts: seq<Part>, tail: seq<byte>): seq<byte>
    requires WellFormedParts(parts)
  {
    if parts == [] then tail else parts[0].junk + (parts[0].page.Encode() + EncodeAll(parts[1..], tail))
  }

  /** Where the pages of a stream start. */
  function Boundaries(parts: seq<Part>, start: nat): seq<nat> {
    if parts == [] then []
    else
      var first := start + |parts[0].junk|;
      [first] + Boundaries(parts[1..], first + parts[0].page.Size())
  }

  function MaxGranule(parts: seq<Part>, least: int): int {
    if parts == [] then least else MaxGranule(parts[1..], Max(least, parts[0].page.Granule()))
  }

  /** The fields of an encoded page, by offset. */
  lemma EncodedFields(p: Page)
    requires p.WellFormed()
    ensures var e := p.Encode(); var n := |p.lacing|;
      && e[0..4] == [0x4F, 0x67, 0x67, 0x53] && e[4..6] == p.kind && e[6..14] == p.position && e[14..26] == p.ids
      && e[26] as int == n && e[27..27 + n] == p.lacing && e[27 + n..] == p.body
  {
  }

  /** The value of eight bytes, the lowest first; from the highest bit on it counts as negative. */
  lemma GranuleIsLittleEndian(b: seq<byte>)
    requires |b| == 8
    ensures var low := b[0] as int + 256 * (b[1] as int + 256 * (b[2] as int + 256 * (b[3] as int
        + 256 * (b[4] as int + 256 * (b[5] as int + 256 * (b[6] as int))))));
      Signed(LittleEndian(b)) == low + 0x100_0000_0000_0000 * (if b[7] < 128 then b[7] as int else b[7] as int - 256)
  {
    LittleEndianSplit(b);
    LittleEndianSplit(b[1..]);
    LittleEndianSplit(b[2..]);
    LittleEndianSplit(b[3..]);
    LittleEndianSplit(b[4..]);
    LittleEndianSplit(b[5..]);
    LittleEndianSplit(b[6..]);
    LittleEndianSplit(b[7..]);
  }

  lemma LittleEndianSplit(b: seq<byte>)
    requires b != []
    ensures LittleEndian(b) == b[0] as int + 256 * LittleEndian(b[1..])
  {
  }

  /** Every 64-bit granule position has its eight bytes. */
  lemma GranuleRoundTrip(v: int)
    requires -TWO63 <= v < TWO63
    ensures Signed(LittleEndian(Bytes(Unsigned(v), 8))) == v
  {
    assert Pow256(8) == TWO64;
    BytesRoundTrip(Unsigned(v), 8);
  }

  datatype Extent = Extent(end: nat, granule: int)

  /** The end and the granule position of the whole page that starts at `pos`, if one does. */
  function PageOf(data: seq<byte>, pos: nat): Option<Extent> {
    if pos + HEADER <= |data| && MagicAt(data, pos) && TableComplete(data, pos)
    then Some(Extent(PageEnd(data, pos), GranuleAt(data, pos))) else None
  }

  /** The bytes of a page, read at its offset in a stream, give back its fields. */
  lemma PageFields(data: seq<byte>, pos: nat, p: Page)
    requires p.WellFormed() && pos + p.Size() <= |data| && data[pos..pos + p.Size()] == p.Encode()
    ensures PageOf(data, pos) == Some(Extent(pos + p.Size(), p.Granule()))
  {
    var size, n := p.Size(), |p.lacing|;
    EncodedFields(p);
    SliceOfSlice(data, pos, size, 0, 4);
    SliceOfSlice(data, pos, size, 6, 14);
    SliceOfSlice(data, pos, size, HEADER, HEADER + n);
    assert data[pos..pos + size][26] == data[pos + 26];
  }

  /** A stream that starts with some bytes: those bytes, and the rest after them. */
  lemma FirstBytes(data: seq<byte>, pos: nat, first: seq<byte>, rest: seq<byte>)
    requires pos <= |data| && data[pos..] == first + rest
    ensures pos + |first| <= |data| && data[pos..pos + |first|] == first && data[pos + |first|..] == rest
  {
    assert data[pos..pos + |first|] == data[pos..][..|first|];
    assert data[pos + |first|..] == data[pos..][|first|..];
  }

  lemma MagicInTail(data: seq<byte>, pos: nat, i: nat)
    requires pos <= |data|
    ensures MagicAt(data, pos + i) <==> MagicAt(data[pos..], i)
  {
    if pos + i + 4 <= |data| {
      assert data[pos..][i..i + 4] == data[pos + i..pos + i + 4];
    }
  }

  /** A capture pattern cannot straddle the start of a page, since 'O' occurs only at its beginning. */
  lemma NoStraddle(junk: seq<byte>, tail: seq<byte>, i: nat)
    requires i < |junk| && !MagicAt(junk, i)
    requires tail == [] || MagicAt(tail, 0)
    ensures !MagicAt(junk + tail, i)
  {
    var data := junk + tail;
    if i + 4 <= |junk| {
      assert data[i..i + 4] == junk[i..i + 4];
    } else if i + 4 <= |data| {
      var k := |junk| - i;
      assert data[i..i + 4][k] == tail[0] == tail[0..4][0];
    }
  }

  /** Bytes without a capture pattern are stepped over one at a time. */
  lemma {:induction false} JunkIsSkipped(data: seq<byte>, pos: nat, start: nat, least: int)
    requires pos <= start <= |data| && (start + HEADER <= |data| || start == |data|)
    requires NoPageStarts(data, pos, start)
    ensures Whole(data, pos, least) == Whole(data, start, least)
    decreases start - pos
  {
    if pos < start {
      JunkIsSkipped(data, pos + 1, start, least);
      if pos + HEADER <= |data| { WholeJunk(data, pos, least); }
    }
  }

  predicate NoPageStarts(data: seq<byte>, from: nat, to: nat) {
    forall i :: from <= i < to ==> !MagicAt(data, i)
  }

  /** No page starts in junk that is followed by a page or by nothing. */
  lemma JunkBytes(data: seq<byte>, pos: nat, junk: seq<byte>, rest: seq<byte>)
    requires pos <= |data| && data[pos..] == junk + rest && IsJunk(junk)
    requires rest == [] || MagicAt(rest, 0)
    ensures pos + |junk| <= |data| && data[pos + |junk|..] == rest && NoPageStarts(data, pos, pos + |junk|)
  {
    FirstBytes(data, pos, junk, rest);
    forall i | pos <= i < pos + |junk| ensures !MagicAt(data, i) {
      NoStraddle(junk, rest, i - pos);
      MagicInTail(data, pos, i - pos);
    }
  }

  lemma PageBytes(data: seq<byte>, pos: nat, p: Page, rest: seq<byte>)
    requires p.WellFormed() && pos <= |data| && data[pos..] == p.Encode() + rest
    ensures PageOf(data, pos) == Some(Extent(pos + p.Size(), p.Granule()))
    ensures pos + p.Size() <= |data| && data[pos + p.Size()..] == rest
  {
    FirstBytes(data, pos, p.Encode(), rest);
    PageFields(data, pos, p);
  }

  lemma StepOverPage(data: seq<byte>, pos: nat, end: nat, granule: int, least: int)
    requires PageOf(data, pos) == Some(Extent(end, granule))
    ensures Whole(data, pos, least) == Found(pos, Whole(data, end, Max(least, granule)))
  {
    WholePage(data, pos, least);
  }

  lemma EncodedStart(p: Page, rest: seq<byte>)
    requires p.WellFormed()
    ensures MagicAt(p.Encode() + rest, 0)
  {
    EncodedFields(p);
    assert (p.Encode() + rest)[0..4] == p.Encode()[0..4];
  }

  /** The junk of a part lies at `pos` and its page after it. */
  predicate FirstPartAt(data: seq<byte>, pos: nat, part: Part) {
    var start := pos + |part.junk|;
    var end := start + part.page.Size();
    && NoPageStarts(data, pos, start) && end <= |data|
    && PageOf(data, start) == Some(Extent(end, part.page.Granule()))
  }

  /** From `pos` to its end the data consists of these parts and bytes in which no page starts. */
  predicate Route(data: seq<byte>, pos: nat, parts: seq<Part>)
    decreases |parts|
  {
    if parts == [] then pos <= |data| && NoPageStarts(data, pos, |data|)
    else FirstPartAt(data, pos, parts[0]) && Route(data, pos + |parts[0].junk| + parts[0].page.Size(), parts[1..])
  }

  lemma PartsShrink(parts: seq<Part>)
    requires WellFormedParts(parts) && parts != []
    ensures parts[0].page.WellFormed() && IsJunk(parts[0].junk) && WellFormedParts(parts[1..])
  {
    assert parts[0] in parts && forall p :: p in parts[1..] ==> p in parts;
  }

  lemma PartBytes(data: seq<byte>, pos: nat, part: Part, rest: seq<byte>)
    requires part.page.WellFormed() && IsJunk(part.junk)
    requires pos <= |data| && data[pos..] == part.junk + (part.page.Encode() + rest)
    ensures FirstPartAt(data, pos, part) && data[pos + |part.junk| + part.page.Size()..] == rest
  {
    EncodedStart(part.page, rest);
    JunkBytes(data, pos, part.junk, part.page.Encode() + rest);
    PageBytes(data, pos + |part.junk|, part.page, rest);
  }

  lemma FirstPartBytes(data: seq<byte>, pos: nat, parts: seq<Part>, tail: seq<byte>) returns (next: nat)
    requires WellFormedParts(parts) && parts != []
    requires pos <= |data| && data[pos..] == EncodeAll(parts, tail)
    ensures FirstPartAt(data, pos, parts[0]) && WellFormedParts(parts[1..])
    ensures next == pos + |parts[0].junk| + parts[0].page.Size() <= |data| && data[next..] == EncodeAll(parts[1..], tail)
  {
    PartsShrink(parts);
    PartBytes(data, pos, parts[0], EncodeAll(parts[1..], tail));
    next := pos + |parts[0].junk| + parts[0].page.Size();
  }

  lemma RouteCons(data: seq<byte>, pos: nat, parts: seq<Part>)
    requires parts != [] && FirstPartAt(data, pos, parts[0])
    requires Route(data, pos + |parts[0].junk| + parts[0].page.Size(), parts[1..])
    ensures Route(data, pos, parts)
  {
  }

  lemma TailRoute(data: seq<byte>, pos: nat, tail: seq<byte>)
    requires IsJunk(tail) && pos <= |data| && data[pos..] == tail
    ensures Route(data, pos, [])
  {
    assert tail + [] == tail;
    JunkBytes(data, pos, tail, []);
  }

  lemma {:induction false} EncodedRoute(data: seq<byte>, pos: nat, parts: seq<Part>, tail: seq<byte>)
    requires WellFormedParts(parts) && IsJunk(tail)
    requires pos <= |data| && data[pos..] == EncodeAll(parts, tail)
    ensures Route(data, pos, parts)
    decreases |parts|
  {
    if parts == [] {
      TailRoute(data, pos, tail);
    } else {
      var next := FirstPartBytes(data, pos, parts, tail);
      EncodedRoute(data, next, parts[1..], tail);
      RouteCons(data, pos, parts);
    }
  }

  lemma {:induction false} RouteIsScanned(data: seq<byte>, pos: nat, parts: seq<Part>, least: int)
    requires Route(data, pos, parts)
    ensures Whole(data, pos, least) == Outcome(Some(MaxGranule(parts, least)), Boundaries(parts, pos))
    decreases |parts|
  {
    if parts == [] {
      JunkIsSkipped(data, pos, |data|, least);
    } else {
      var start := pos + |parts[0].junk|;
      var end := start + parts[0].page.Size();
      JunkIsSkipped(data, pos, start, least);
      StepOverPage(data, start, end, parts[0].page.Granule(), least);
      RouteIsScanned(data, end, parts[1..], Max(least, parts[0].page.Granule()));
    }
  }

  /** For every sequence of well-formed pages, with any bytes in which no capture pattern starts
      before, between and after them, the scan recognises exactly the page starts and finds the
      largest granule position. */
  lemma StreamIsScanned(parts: seq<Part>, tail: seq<byte>)
    requires WellFormedParts(parts) && IsJunk(tail)
    ensures Whole(EncodeAll(parts, tail), 0, 0) == Outcome(Some(MaxGranule(parts, 0)), Boundaries(parts, 0))
  {
    var data := EncodeAll(parts, tail);
    assert data[0..] == data;
    EncodedRoute(data, 0, parts, tail);
    RouteIsScanned(data, 0, parts, 0);
  }

  lemma DurationOfOutcome(data: seq<byte>, d: Device, total: int, pages: seq<nat>)
    requires d.calls > 0 && ScanFor(data, 0, 0, d.(calls := d.calls - 1)) == Outcome(Some(total), pages)
    ensures Duration(data, d) == (Some(total as real / 48000.0), pages)
  {
  }

  lemma StreamIsScannedFor(parts: seq<Part>, tail: seq<byte>, d: Device)
    requires WellFormedParts(parts) && IsJunk(tail) && Lasts(d, |EncodeAll(parts, tail)|)
    ensures ScanFor(EncodeAll(parts, tail), 0, 0, d) == Outcome(Some(MaxGranule(parts, 0)), Boundaries(parts, 0))
  {
    StreamIsScanned(parts, tail);
    EnoughCalls(EncodeAll(parts, tail), 0, 0, d);
  }

  /** So on such a stream, with a device that lasts, the function recognises exactly the page
      starts and returns the largest granule position over 48000 samples a second. */
  lemma DurationOfStream(parts: seq<Part>, tail: seq<byte>, d: Device)
    requires WellFormedParts(parts) && IsJunk(tail)
    requires d.calls > 0 && Lasts(d.(calls := d.calls - 1), |EncodeAll(parts, tail)|)
    ensures Duration(EncodeAll(parts, tail), d) == (Some(MaxGranule(parts, 0) as real / 48000.0), Boundaries(parts, 0))
  {
    StreamIsScannedFor(parts, tail, d.(calls := d.calls - 1));
    DurationOfOutcome(EncodeAll(parts, tail), d, MaxGranule(parts, 0), Boundaries(parts, 0));
  }

  /** The folded maximum is an upper bound that is attained. */
  lemma {:induction false} MaxGranuleIsMax(parts: seq<Part>, least: int)
    ensures MaxGranule(parts, least) >= least
    ensures forall i :: 0 <= i < |parts| ==> parts[i].page.Granule() <= MaxGranule(parts, least)
    ensures MaxGranule(parts, least) == least || exists i :: 0 <= i < |parts| && parts[i].page.Granule() == MaxGranule(parts, least)
    decreases |parts|
  {
    if parts != [] {
      MaxGranuleIsMax(parts[1..], Max(least, parts[0].page.Granule()));
      var m := MaxGranule(parts, least);
      if m != least && parts[0].page.Granule() != m {
        var i :| 0 <= i < |parts[1..]| && parts[1..][i].page.Granule() == m;
        assert parts[i + 1].page.Granule() == m;
      }
    }
  }
}
