/**
The two implementations of request-body storage: a byte slice behind a
bytes.Reader, and a temporary file. They are shown to be indistinguishable.
*/
module BodyStorage {
  type Bytes = seq<bv8>

  datatype Whence = FromStart | FromCurrent | FromEnd

  datatype Op = Read(n: nat) | Seek(offset: int, whence: Whence) | GetBytes | Close

  /** What a caller sees of one call. */
  datatype Seen =
    | Data(bytes: Bytes)     // n > 0 bytes, or no bytes and no error
    | EndOfFile
    | Position(pos: nat)
    | BadSeek
    | Content(all: Bytes)
    | StorageClosed
    | NoError

  /** The absolute offset a seek asks for. */
  function Target(size: nat, pos: nat, offset: int, whence: Whence): int {
    match whence
    case FromStart => offset
    case FromCurrent => pos + offset
    case FromEnd => size + offset
  }

  function Slice(data: Bytes, pos: nat, n: nat): Bytes {
    if pos >= |data| then [] else if pos + n <= |data| then data[pos..pos + n] else data[pos..]
  }

  // ---------- memory ----------

  datatype Memory = Memory(data: Bytes, pos: nat, closed: bool)

  function MemoryStep(m: Memory, op: Op): (Seen, Memory) {
    if op.Close? then (NoError, m.(closed := true))
    else if m.closed then (StorageClosed, m)
    else
      match op
      case Read(n) =>
        if m.pos >= |m.data| then (EndOfFile, m)
        else (Data(Slice(m.data, m.pos, n)), m.(pos := m.pos + |Slice(m.data, m.pos, n)|))
      case Seek(offset, whence) =>
        var target := Target(|m.data|, m.pos, offset, whence);
        if target < 0 then (BadSeek, m) else (Position(target), m.(pos := target))
      case GetBytes => (Content(m.data), m)
  }

  class MemoryStorage {
    const data: Bytes
    var pos: nat
    var closed: bool

    ghost function View(): Memory
      reads this
    {
      Memory(data, pos, closed)
    }

    constructor (data: Bytes)
      ensures View() == Memory(data, 0, false)
    {
      this.data, pos, closed := data, 0, false;
    }

    method Call(op: Op) returns (seen: Seen)
      modifies this
      ensures (seen, View()) == MemoryStep(old(View()), op)
    {
      if op.Close? {
        closed := true;
        return NoError;
      }
      if closed {
        return StorageClosed;
      }
      match op {
        case Read(n) =>
          if pos >= |data| {
            return EndOfFile;
          }
          var chunk := Slice(data, pos, n);
          pos := pos + |chunk|;
          return Data(chunk);
        case Seek(offset, whence) =>
          var target := Target(|data|, pos, offset, whence);
          if target < 0 {
            return BadSeek;
          }
          pos := target;
          return Position(target);
        case GetBytes =>
          return Content(data);
      }
    }
  }

  // ---------- disk ----------

  /** An open file as the operating system keeps it. */
  class File {
    const content: Bytes
    var offset: nat

    constructor (content: Bytes)
      ensures this.content == content && offset == 0
    {
      this.content, offset := content, 0;
    }

    /** File.Read reports the end of the file only for a non-empty buffer. */
    method Read(n: nat) returns (chunk: Bytes, eof: bool)
      modifies this
      ensures chunk == Slice(content, old(offset), n) && offset == old(offset) + |chunk|
      ensures eof == (n > 0 && chunk == [])
    {
      chunk := Slice(content, offset, n);
      offset := offset + |chunk|;
      eof := n > 0 && |chunk| == 0;
    }

    method Seek(delta: int, whence: Whence) returns (pos: int)
      modifies this
      ensures pos == Target(|content|, old(offset), delta, whence)
      ensures offset == if pos < 0 then old(offset) else pos
    {
      pos := Target(|content|, offset, delta, whence);
      if pos >= 0 {
        offset := pos;
      }
    }

    /** io.ReadFull */
    method ReadFull(n: nat) returns (all: Bytes)
      modifies this
      ensures all == Slice(content, old(offset), n) && offset == old(offset) + |all|
    {
      var eof;
      all, eof := Read(n);
      while |all| < n && !eof
        invariant |all| <= n && all == Slice(content, old(offset), |all|) && offset == old(offset) + |all|
        invariant |all| < n && eof ==> offset >= |content|
        decreases n - |all|, !eof
      {
        var more;
        more, eof := Read(n - |all|);
        all := all + more;
      }
    }
  }

  datatype Disk = Disk(content: Bytes, offset: nat, size: nat, closed: bool)

  class DiskStorage {
    const file: File
    const size: nat
    var closed: bool

    ghost function View(): Disk
      reads this, file
    {
      Disk(file.content, file.offset, size, closed)
    }

    constructor (data: Bytes)
      ensures View() == Disk(data, 0, |data|, false) && fresh(file)
    {
      file := new File(data);
      size, closed := |data|, false;
    }

    method Call(op: Op) returns (seen: Seen)
      modifies this, file
      ensures (seen, View()) == DiskStep(old(View()), op)
    {
      if op.Close? {
        closed := true;
        return NoError;
      }
      if closed {
        return StorageClosed;
      }
      match op {
        case Read(n) =>
          var chunk, eof := file.Read(n);
          return if eof then EndOfFile else Data(chunk);
        case Seek(offset, whence) =>
          var pos := file.Seek(offset, whence);
          return if pos < 0 then BadSeek else Position(pos);
        case GetBytes =>
          var current := file.Seek(0, FromCurrent);
          var start := file.Seek(0, FromStart);
          var all := file.ReadFull(size);
          var back := file.Seek(current, FromStart);
          return Content(all);
      }
    }
  }

  function DiskStep(d: Disk, op: Op): (Seen, Disk) {
    if op.Close? then (NoError, d.(closed := true))
    else if d.closed then (StorageClosed, d)
    else
      match op
      case Read(n) =>
        var chunk := Slice(d.content, d.offset, n);
        (if n > 0 && chunk == [] then EndOfFile else Data(chunk), d.(offset := d.offset + |chunk|))
      case Seek(offset, whence) =>
        var target := Target(|d.content|, d.offset, offset, whence);
        if target < 0 then (BadSeek, d) else (Position(target), d.(offset := target))
      case GetBytes => (Content(Slice(d.content, 0, d.size)), d)
  }

  // ---------- equivalence ----------

  predicate Alike(m: Memory, d: Disk) {
    m.data == d.content && d.size == |d.content| && m.pos == d.offset && m.closed == d.closed
  }

  /** One call shows the same on both storages, except an empty read at or past the end. */
  lemma CallAgreesIff(m: Memory, d: Disk, op: Op)
    requires Alike(m, d)
    ensures Alike(MemoryStep(m, op).1, DiskStep(d, op).1)
    ensures MemoryStep(m, op).0 == DiskStep(d, op).0 <==> !(op == Read(0) && !m.closed && m.pos >= |m.data|)
  {
    if op.GetBytes? {
      assert Slice(d.content, 0, d.size) == d.content;
    }
  }

  /** The bytes from `pos` on, `n` of them or what is left. */
  predicate IsNext(data: Bytes, pos: nat, n: nat, chunk: Bytes) {
    && |chunk| <= n && (|chunk| < n ==> pos + |chunk| >= |data|)
    && forall i :: 0 <= i < |chunk| ==> pos + i < |data| && chunk[i] == data[pos + i]
  }

  /** A read shows the bytes from the position on and moves behind them; at the end it reports the
      end of the file, on disk only for a non-empty buffer. */
  lemma ReadIsExact(m: Memory, d: Disk, n: nat)
    requires Alike(m, d) && !m.closed
    ensures var (seen, m') := MemoryStep(m, Read(n));
      if m.pos >= |m.data| then seen == EndOfFile && m' == m
      else seen.Data? && IsNext(m.data, m.pos, n, seen.bytes) && m' == Memory(m.data, m.pos + |seen.bytes|, false)
    ensures var (seen, d') := DiskStep(d, Read(n));
      if n > 0 && d.offset >= |d.content| then seen == EndOfFile && d' == d
      else seen.Data? && IsNext(d.content, d.offset, n, seen.bytes) && d' == Disk(d.content, d.offset + |seen.bytes|, d.size, false)
  {
  }

  /** A seek counts from the start, the position or the end; a negative result is refused. */
  lemma SeekIsExact(m: Memory, d: Disk, offset: int, whence: Whence)
    requires Alike(m, d) && !m.closed
    ensures var target := (if whence.FromStart? then 0 else if whence.FromCurrent? then m.pos else |m.data|) + offset;
      if target < 0 then MemoryStep(m, Seek(offset, whence)) == (BadSeek, m) && DiskStep(d, Seek(offset, whence)) == (BadSeek, d)
      else
        && MemoryStep(m, Seek(offset, whence)) == (Position(target), Memory(m.data, target, false))
        && DiskStep(d, Seek(offset, whence)) == (Position(target), Disk(d.content, target, d.size, false))
  {
  }

  // ---------- runs of calls ----------

  /** A storage kind: what a call shows, and the storage after it. */
  type Kind<!S> = (S, Op) -> (Seen, S)

  function Shown<S>(kind: Kind<S>, s: S, ops: seq<Op>): seq<Seen>
    decreases |ops|
  {
    if ops == [] then [] else [kind(s, ops[0]).0] + Shown(kind, kind(s, ops[0]).1, ops[1..])
  }

  function After<S>(kind: Kind<S>, s: S, ops: seq<Op>): S
    decreases |ops|
  {
    if ops == [] then s else After(kind, kind(s, ops[0]).1, ops[1..])
  }

  /** Storages holding the same bytes cannot be told apart by any sequence of calls without empty reads. */
  lemma {:induction false} StoragesAreEquivalent(m: Memory, d: Disk, ops: seq<Op>)
    requires Alike(m, d) && Read(0) !in ops
    ensures Shown(MemoryStep, m, ops) == Shown(DiskStep, d, ops)
    decreases |ops|
  {
    if ops != [] {
      CallAgreesIff(m, d, ops[0]);
      StoragesAreEquivalent(MemoryStep(m, ops[0]).1, DiskStep(d, ops[0]).1, ops[1..]);
    }
  }

  lemma ShownCons<S>(kind: Kind<S>, s: S, op: Op, rest: seq<Op>)
    ensures Shown(kind, s, [op] + rest) == [kind(s, op).0] + Shown(kind, kind(s, op).1, rest)
    ensures After(kind, s, [op] + rest) == After(kind, kind(s, op).1, rest)
  {
    assert ([op] + rest)[1..] == rest;
  }

  /** What the calls show one after the other. */
  predicate Splits<S(==)>(kind: Kind<S>, s: S, xs: seq<Op>, ys: seq<Op>) {
    Shown(kind, s, xs + ys) == Shown(kind, s, xs) + Shown(kind, After(kind, s, xs), ys)
  }

  lemma Assoc(xs: seq<Seen>, ys: seq<Seen>, zs: seq<Seen>)
    ensures xs + (ys + zs) == xs + ys + zs
  {
  }

  lemma SplitsCons<S>(kind: Kind<S>, s: S, op: Op, rest: seq<Op>, ys: seq<Op>, xs: seq<Op>, all: seq<Op>)
    requires Splits(kind, kind(s, op).1, rest, ys) && xs == [op] + rest && all == [op] + (rest + ys)
    ensures Shown(kind, s, all) == Shown(kind, s, xs) + Shown(kind, After(kind, s, xs), ys)
  {
    var s' := kind(s, op).1;
    ShownCons(kind, s, op, rest);
    ShownCons(kind, s, op, rest + ys);
    Assoc([kind(s, op).0], Shown(kind, s', rest), Shown(kind, After(kind, s', rest), ys));
  }

  lemma {:induction false} ShownConcat<S>(kind: Kind<S>, s: S, xs: seq<Op>, ys: seq<Op>)
    ensures Splits(kind, s, xs, ys)
    decreases |xs|
  {
    if xs == [] {
      assert xs + ys == ys;
    } else {
      ShownConcat(kind, kind(s, xs[0]).1, xs[1..], ys);
      assert xs == [xs[0]] + xs[1..] && xs + ys == [xs[0]] + (xs[1..] + ys);
      SplitsCons(kind, s, xs[0], xs[1..], ys, xs, xs + ys);
    }
  }

  /** A call that changes nothing can be put anywhere into a run without changing what the others show. */
  lemma Insertion<S>(kind: Kind<S>, s: S, before: seq<Op>, op: Op, after: seq<Op>)
    requires kind(After(kind, s, before), op).1 == After(kind, s, before)
    ensures var mid := After(kind, s, before);
      && Shown(kind, s, before + after) == Shown(kind, s, before) + Shown(kind, mid, after)
      && Shown(kind, s, before + [op] + after) == Shown(kind, s, before) + [kind(mid, op).0] + Shown(kind, mid, after)
  {
    ShownConcat(kind, s, before, after);
    ShownConcat(kind, s, before, [op] + after);
    assert before + [op] + after == before + ([op] + after);
    assert ([op] + after)[1..] == after;
  }

  lemma {:induction false} DiskKeepsContent(d: Disk, ops: seq<Op>)
    ensures After(DiskStep, d, ops).content == d.content && After(DiskStep, d, ops).size == d.size
    decreases |ops|
  {
    if ops != [] { DiskKeepsContent(DiskStep(d, ops[0]).1, ops[1..]); }
  }

  lemma {:induction false} MemoryKeepsData(m: Memory, ops: seq<Op>)
    ensures After(MemoryStep, m, ops).data == m.data
    decreases |ops|
  {
    if ops != [] { MemoryKeepsData(MemoryStep(m, ops[0]).1, ops[1..]); }
  }

  /** What asking for all bytes shows. */
  function AllBytes(content: Bytes, closed: bool): Seen {
    if closed then StorageClosed else Content(content)
  }

  /** Asking for all bytes anywhere in a run shows the whole content, unless the storage is
      closed, and changes nothing that any other call shows; on disk and in memory. */
  lemma BytesAreTransparent(m: Memory, d: Disk, before: seq<Op>, after: seq<Op>)
    requires d.size == |d.content|
    ensures var mid := After(DiskStep, d, before);
      && Shown(DiskStep, d, before + after) == Shown(DiskStep, d, before) + Shown(DiskStep, mid, after)
      && Shown(DiskStep, d, before + [GetBytes] + after)
         == Shown(DiskStep, d, before) + [AllBytes(d.content, mid.closed)] + Shown(DiskStep, mid, after)
    ensures var mid := After(MemoryStep, m, before);
      && Shown(MemoryStep, m, before + after) == Shown(MemoryStep, m, before) + Shown(MemoryStep, mid, after)
      && Shown(MemoryStep, m, before + [GetBytes] + after)
         == Shown(MemoryStep, m, before) + [AllBytes(m.data, mid.closed)] + Shown(MemoryStep, mid, after)
  {
    DiskKeepsContent(d, before);
    MemoryKeepsData(m, before);
    assert Slice(d.content, 0, d.size) == d.content;
    Insertion(DiskStep, d, before, GetBytes, after);
    Insertion(MemoryStep, m, before, GetBytes, after);
  }

  /** The answers of a closed storage. */
  predicate AllRefused(ops: seq<Op>, shown: seq<Seen>) {
    |shown| == |ops| && forall i :: 0 <= i < |ops| ==> shown[i] == if ops[i].Close? then NoError else StorageClosed
  }

  lemma {:induction false} RefusedForGood<S>(kind: Kind<S>, s: S, ops: seq<Op>)
    requires forall op :: kind(s, op) == (if op.Close? then NoError else StorageClosed, s)
    ensures After(kind, s, ops) == s && AllRefused(ops, Shown(kind, s, ops))
    decreases |ops|
  {
    if ops != [] { RefusedForGood(kind, s, ops[1..]); }
  }

  /** After a Close, every call of any run fails or, if it is another Close, does nothing; on disk
      and in memory. */
  lemma ClosedForGood(m: Memory, d: Disk, ops: seq<Op>)
    ensures var closed := DiskStep(d, Close).1; After(DiskStep, closed, ops) == closed && AllRefused(ops, Shown(DiskStep, closed, ops))
    ensures var closed := MemoryStep(m, Close).1; After(MemoryStep, closed, ops) == closed && AllRefused(ops, Shown(MemoryStep, closed, ops))
  {
    RefusedForGood(DiskStep, DiskStep(d, Close).1, ops);
    RefusedForGood(MemoryStep, MemoryStep(m, Close).1, ops);
  }

  // ---------- reading through ----------

  /** The bytes that a run of reads has delivered. */
  function Delivered(shown: seq<Seen>): Bytes {
    if shown == [] then [] else (if shown[0].Data? then shown[0].bytes else []) + Delivered(shown[1..])
  }

  predicate OnlyReads(ops: seq<Op>) { forall i :: 0 <= i < |ops| ==> ops[i].Read? }

  /** What one read delivers lies between the position before it and the one after it. */
  lemma ReadDelivers(m: Memory, n: nat)
    requires !m.closed && m.pos <= |m.data|
    ensures var (seen, m') := MemoryStep(m, Read(n));
      && m'.data == m.data && !m'.closed && m.pos <= m'.pos <= |m.data|
      && Delivered([seen]) == m.data[m.pos..m'.pos]
      && (seen == EndOfFile ==> m'.pos == |m.data|)
  {
    var seen := MemoryStep(m, Read(n)).0;
    assert [seen][1..] == [] && Delivered([]) == [];
  }

  lemma DeliveredCons(seen: Seen, rest: seq<Seen>)
    ensures Delivered([seen] + rest) == Delivered([seen]) + Delivered(rest)
  {
    assert [seen][1..] == [] && Delivered([]) == [];
    assert ([seen] + rest)[1..] == rest;
  }

  /** Up to position `end` the content has been delivered. */
  predicate DeliveredUpTo(m: Memory, shown: seq<Seen>, end: nat) {
    && m.pos <= end <= |m.data| && Delivered(shown) == m.data[m.pos..end]
    && (EndOfFile in shown ==> end == |m.data|)
  }

  lemma DeliveredFurther(m: Memory, n: nat, rest: seq<Seen>, end: nat)
    requires !m.closed && m.pos <= |m.data| && DeliveredUpTo(MemoryStep(m, Read(n)).1, rest, end)
    ensures DeliveredUpTo(m, [MemoryStep(m, Read(n)).0] + rest, end)
  {
    var (seen, m1) := MemoryStep(m, Read(n));
    ReadDelivers(m, n);
    DeliveredCons(seen, rest);
    assert m.data[m.pos..m1.pos] + m.data[m1.pos..end] == m.data[m.pos..end];
  }

  /** Reads of any lengths deliver the content from the position on, in order, nothing twice and
      nothing left out; once the end is reported all of it has been delivered. On disk the same
      follows for non-empty reads, which show the same. */
  lemma {:induction false} ReadsDeliverTheContent(m: Memory, ops: seq<Op>)
    requires !m.closed && m.pos <= |m.data| && OnlyReads(ops)
    ensures DeliveredUpTo(m, Shown(MemoryStep, m, ops), After(MemoryStep, m, ops).pos)
    decreases |ops|
  {
    if ops != [] {
      var n, m1 := ops[0].n, MemoryStep(m, ops[0]).1;
      ReadDelivers(m, n);
      ReadsDeliverTheContent(m1, ops[1..]);
      DeliveredFurther(m, n, Shown(MemoryStep, m1, ops[1..]), After(MemoryStep, m1, ops[1..]).pos);
    }
  }
}
