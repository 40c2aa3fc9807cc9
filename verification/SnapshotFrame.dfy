/** Versioned binary framing of L2 snapshots around an unchanged payload
    (src/distributed.rs): magic, version, big-endian header length, JSON header, payload. */
module SnapshotFrame {
  import opened Prelude
  import opened CodecNumbers
  import opened CodecEnvelope
  import opened RetentionModel

  datatype Result<T> = Ok(value: T) | Err

  const MAGIC: Bytes := [65, 77, 65, 76, 71, 65, 77, 0]
  const VERSION: Byte := 2
  const TWO_32: nat := 0x1_0000_0000

  datatype WireRetention = Unspecified | Specified(size: Option<nat>, priority: Byte)

  datatype Header = Header(inserted: int, retention: WireRetention)

  const INSERTED: Bytes := Prefix(OPEN_BRACE, Ascii("inserted_ticks"))
  const RETENTION: Bytes := Prefix(COMMA, Ascii("retention")) + Prefix(OPEN_BRACE, Ascii("kind"))
  const UNSPECIFIED: Bytes := RETENTION + PrintString(Ascii("Unspecified")) + [CLOSE_BRACE, CLOSE_BRACE]
  const SPECIFIED: Bytes := RETENTION + PrintString(Ascii("Specified")) + Prefix(COMMA, Ascii("size"))
  const PRIORITY: Bytes := Prefix(COMMA, Ascii("priority"))

  /** The serialized header. */
  function PrintHeader(h: Header): Bytes {
    INSERTED + (PrintI64(h.inserted) + PrintRetention(h.retention))
  }

  function PrintRetention(r: WireRetention): Bytes {
    match r
    case Unspecified => UNSPECIFIED
    case Specified(size, priority) =>
      SPECIFIED + (PrintTicks(size) + (PRIORITY + (PrintNat(priority) + [CLOSE_BRACE, CLOSE_BRACE])))
  }

  /** The header fast path. */
  function CanonicalHeader(b: Bytes): Option<Header> {
    var (ticks, rest) :- TickField(b, INSERTED);
    if rest == UNSPECIFIED then Some(Header(ticks, Unspecified)) else None
  }

  /** The general header decoder the fast path falls back to. */
  type HeaderDecoder = Bytes -> Option<Header>

  function DecodeHeader(general: HeaderDecoder, b: Bytes): Option<Header> {
    var fast := CanonicalHeader(b);
    if fast.Some? then fast else general(b)
  }

  function BigEndian(n: nat): (b: Bytes)
    requires n < TWO_32
    ensures |b| == 4
  {
    [n / 0x100_0000, n / 0x1_0000 % 0x100, n / 0x100 % 0x100, n % 0x100]
  }

  function FromBigEndian(b: Bytes): nat
    requires |b| == 4
  {
    (((b[0] as int) * 0x100 + b[1]) * 0x100 + b[2]) * 0x100 + b[3]
  }

  lemma BigEndianRoundTrip(n: nat)
    requires n < TWO_32
    ensures FromBigEndian(BigEndian(n)) == n
  {
    var b := BigEndian(n);
    assert n / 0x1_0000 == n / 0x100 / 0x100 && n / 0x100_0000 == n / 0x100 / 0x100 / 0x100;
  }

  lemma FromBigEndianRoundTrip(b: Bytes)
    requires |b| == 4
    ensures FromBigEndian(b) < TWO_32 && BigEndian(FromBigEndian(b)) == b
  {
    var n := FromBigEndian(b);
    var high := ((b[0] as int) * 0x100 + b[1]) * 0x100 + b[2];
    assert n / 0x100 == high && n % 0x100 == b[3];
    assert high / 0x100 == (b[0] as int) * 0x100 + b[1] && high % 0x100 == b[2];
    assert n / 0x1_0000 == high / 0x100 && n / 0x100_0000 == high / 0x100 / 0x100;
  }

  /** The bytes before the payload, for a header text. */
  function Preamble(header: Bytes): Bytes
    requires |header| < TWO_32
  {
    MAGIC + [VERSION] + BigEndian(|header|) + header
  }

  /** Refuses only a header whose length does not fit in 32 bits. */
  function Frame(h: Header, payload: Bytes): Result<Bytes> {
    var header := PrintHeader(h);
    if |header| < TWO_32 then Ok(Preamble(header) + payload) else Err
  }

  /** None means the bytes are a legacy payload without a frame. */
  function Unframe(general: HeaderDecoder, bytes: Bytes): Result<Option<(Header, Bytes)>> {
    if !(MAGIC <= bytes) then Ok(None)
    else if |bytes| < 13 || bytes[8] != VERSION then Err
    else
      var end := 13 + FromBigEndian(bytes[9..13]);
      if end > |bytes| then Err
      else
        var h := DecodeHeader(general, bytes[13..end]);
        if h.None? then Err else Ok(Some((h.value, bytes[end..])))
  }

  // ---- What unframing accepts --------------------------------------------------------------

  lemma PreambleUnframes(general: HeaderDecoder, header: Bytes, payload: Bytes)
    requires |header| < TWO_32
    ensures Unframe(general, Preamble(header) + payload)
         == if DecodeHeader(general, header).None? then Err else Ok(Some((DecodeHeader(general, header).value, payload)))
  {
    var b := Preamble(header) + payload;
    BigEndianRoundTrip(|header|);
    assert MAGIC <= b && b[8] == VERSION;
    assert b[9..13] == BigEndian(|header|);
    assert b[13..13 + |header|] == header && b[13 + |header|..] == payload;
  }

  /** Exactly the framed texts whose header decodes are accepted, each with its own payload. */
  lemma UnframeAccepts(general: HeaderDecoder, bytes: Bytes, h: Header, payload: Bytes)
    ensures Unframe(general, bytes) == Ok(Some((h, payload)))
       <==> exists header: Bytes :: |header| < TWO_32 && bytes == Preamble(header) + payload
                                    && DecodeHeader(general, header) == Some(h)
  {
    if Unframe(general, bytes) == Ok(Some((h, payload))) {
      var header := bytes[13..13 + FromBigEndian(bytes[9..13])];
      Reassembles(bytes);
      assert bytes == Preamble(header) + payload && DecodeHeader(general, header) == Some(h);
    }
    forall header: Bytes | |header| < TWO_32 && bytes == Preamble(header) + payload && DecodeHeader(general, header) == Some(h)
      ensures Unframe(general, bytes) == Ok(Some((h, payload)))
    {
      PreambleUnframes(general, header, payload);
    }
  }

  /** A text with a complete frame is its preamble followed by the rest. */
  lemma Reassembles(bytes: Bytes)
    requires |bytes| >= 13 && MAGIC <= bytes && bytes[8] == VERSION && 13 + FromBigEndian(bytes[9..13]) <= |bytes|
    ensures var end := 13 + FromBigEndian(bytes[9..13]);
      |bytes[13..end]| < TWO_32 && bytes == Preamble(bytes[13..end]) + bytes[end..]
  {
    var length := bytes[9..13];
    FromBigEndianRoundTrip(length);
    assert bytes == MAGIC + [VERSION] + length + bytes[13..13 + FromBigEndian(length)] + bytes[13 + FromBigEndian(length)..];
  }

  // ---- Headers -------------------------------------------------------------------------------

  predicate ValidHeader(h: Header) {
    && -(MAX_I64 as int) - 1 <= h.inserted <= MAX_I64
    && (h.retention.Specified? && h.retention.size.Some? ==> h.retention.size.value < TWO_64)
  }

  lemma PrintedLength(n: nat)
    requires n < Pow10(20)
    ensures |PrintNat(n)| <= 20
  {
    var s := PrintNat(n);
    if |s| > 20 {
      ValueAtLeast(s);
      Pow10Monotone(20, |s| - 1);
    }
  }

  /** Framing never fails on the headers this program builds. */
  lemma HeaderFits(h: Header)
    requires ValidHeader(h)
    ensures |PrintHeader(h)| < TWO_32
  {
    Powers();
    assert Pow10(20) == 10 * Pow10(19);
    PrintedLength(if h.inserted < 0 then -h.inserted else h.inserted);
    if h.retention.Specified? {
      PrintedLength(h.retention.priority);
      if h.retention.size.Some? {
        PrintedLength(h.retention.size.value);
      }
    }
  }

  /** The fast path decodes the header it is meant for. */
  lemma CanonicalHeaderRoundTrip(h: Header)
    requires InRange(h.inserted) && h.retention.Unspecified?
    ensures CanonicalHeader(PrintHeader(h)) == Some(h)
  {
    assert UNSPECIFIED[0] == COMMA;
    TickFieldRoundTrip(INSERTED, h.inserted, UNSPECIFIED);
  }

  /** Decimal text without leading zeros is the one that printing gives. */
  lemma {:induction false} PrintNatUnique(s: Bytes)
    requires s != [] && AllDigits(s) && (|s| > 1 ==> s[0] != ZERO)
    ensures PrintNat(Value(s)) == s
    decreases |s|
  {
    var init := s[..|s| - 1];
    if init == [] {
      assert s == [s[0]] && Value([]) == 0;
    } else {
      PrintNatUnique(init);
      ValueAtLeast(init);
      Pow10Monotone(0, |init| - 1);
      assert Value(s) / 10 == Value(init) && Value(s) % 10 == s[|s| - 1] - ZERO;
      assert s == init + [s[|s| - 1]];
    }
  }

  /** The one accepted spelling that printing never gives. */
  const NEGATIVE_ZERO: Bytes := [MINUS, ZERO]

  lemma CanonicalI64Spelling(b: Bytes)
    requires CanonicalI64(b).Some?
    ensures var (n, rest) := CanonicalI64(b).value;
      InRange(n) && (b == PrintI64(n) + rest || (n == 0 && b == NEGATIVE_ZERO + rest))
  {
    var (n, rest) := CanonicalI64(b).value;
    var digits := if b[0] == MINUS then b[1..] else b;
    var run := digits[..DigitRun(digits)];
    assert digits == run + rest;
    PrintNatUnique(run);
    if b[0] == MINUS {
      assert b == [MINUS] + run + rest;
      assert n == 0 ==> run == PrintNat(0) == [ZERO];
      assert n == 0 ==> [MINUS] + run == NEGATIVE_ZERO;
    }
  }

  /** The fast path accepts the printed unspecified headers, their zero also spelled `-0`,
      and nothing else. */
  lemma CanonicalHeaderExact(b: Bytes, h: Header)
    ensures CanonicalHeader(b) == Some(h)
       <==> && InRange(h.inserted) && h.retention.Unspecified?
            && (b == PrintHeader(h) || (h.inserted == 0 && b == INSERTED + (NEGATIVE_ZERO + UNSPECIFIED)))
  {
    if CanonicalHeader(b) == Some(h) {
      var rest := StripPrefix(b, INSERTED).value;
      assert b == INSERTED + rest;
      CanonicalI64Spelling(rest);
    }
    if InRange(h.inserted) && h.retention.Unspecified? {
      CanonicalHeaderRoundTrip(h);
      NegativeZeroHeader();
    }
  }

  lemma NegativeZeroHeader()
    ensures CanonicalHeader(INSERTED + (NEGATIVE_ZERO + UNSPECIFIED)) == Some(Header(0, Unspecified))
  {
    var s := NEGATIVE_ZERO + UNSPECIFIED;
    Strips(INSERTED, s);
    assert UNSPECIFIED[0] == COMMA;
    assert s[1..] == [ZERO] + UNSPECIFIED;
    DigitRunUnique([ZERO], UNSPECIFIED);
    assert s[1..][..1] == [ZERO] && s[1..][1..] == UNSPECIFIED;
    assert [ZERO] == PrintNat(0);
  }

  // ---- Snapshots -----------------------------------------------------------------------------

  datatype SnapshotRetention = Open | Fixed(size: Option<nat>, priority: Priority)

  datatype Snapshot<V> = Snapshot(entry: Envelope<V>, inserted: int, retention: SnapshotRetention)

  function PriorityByte(p: Priority): Byte {
    match p
    case Low => 1
    case Normal => 2
    case High => 3
    case NeverRemove => 4
  }

  function PriorityFromByte(b: Byte): Result<Priority> {
    match b
    case 1 => Ok(Low)
    case 2 => Ok(Normal)
    case 3 => Ok(High)
    case 4 => Ok(NeverRemove)
    case _ => Err
  }

  function HeaderOf<V>(s: Snapshot<V>): Header {
    Header(s.inserted, match s.retention
      case Open => Unspecified
      case Fixed(size, priority) => Specified(size, PriorityByte(priority)))
  }

  /** The payload codec: its decoder, and which tag spellings are not blank. */
  datatype Codec<!V> = Codec(deserialize: Bytes -> Option<Envelope<V>>, tagAllowed: Bytes -> bool)

  predicate ValidEntry<V>(c: Codec<V>, e: Envelope<V>) {
    e.logical <= e.physical && forall i | 0 <= i < |e.tags| :: c.tagAllowed(e.tags[i])
  }

  function NewSnapshot<V>(c: Codec<V>, entry: Envelope<V>, inserted: int, retention: SnapshotRetention): Result<Snapshot<V>> {
    if ValidEntry(c, entry) then Ok(Snapshot(entry, inserted, retention)) else Err
  }

  function RetentionOf(w: WireRetention): Result<SnapshotRetention> {
    match w
    case Unspecified => Ok(Open)
    case Specified(size, priority) =>
      var p := PriorityFromByte(priority);
      if p.Err? then Err else Ok(Fixed(size, p.value))
  }

  function DeserializeSnapshot<V>(c: Codec<V>, general: HeaderDecoder, bytes: Bytes): Result<Snapshot<V>> {
    var frame := Unframe(general, bytes);
    if frame.Err? then Err
    else if frame.value.None? then
      var entry := c.deserialize(bytes);
      if entry.None? then Err else NewSnapshot(c, entry.value, entry.value.created, Open)
    else
      var (h, payload) := frame.value.value;
      var retention := RetentionOf(h.retention);
      var entry := c.deserialize(payload);
      if retention.Err? || entry.None? then Err
      else NewSnapshot(c, entry.value, h.inserted, retention.value)
  }

  lemma PriorityRoundTrip(p: Priority, b: Byte)
    ensures PriorityFromByte(PriorityByte(p)) == Ok(p)
    ensures PriorityFromByte(b).Ok? ==> PriorityByte(PriorityFromByte(b).value) == b
  {
  }

  /** Every valid snapshot survives framing, given that the payload codec and, for the
      headers the fast path leaves to it, the general header decoder invert their encoders. */
  lemma SnapshotRoundTrip<V>(c: Codec<V>, general: HeaderDecoder, s: Snapshot<V>, payload: Bytes)
    requires ValidHeader(HeaderOf(s)) && ValidEntry(c, s.entry)
    requires c.deserialize(payload) == Some(s.entry)
    requires (s.retention.Open? && InRange(s.inserted)) || general(PrintHeader(HeaderOf(s))) == Some(HeaderOf(s))
    ensures Frame(HeaderOf(s), payload).Ok?
    ensures DeserializeSnapshot(c, general, Frame(HeaderOf(s), payload).value) == Ok(s)
  {
    var h := HeaderOf(s);
    HeaderFits(h);
    HeaderRoundTrip(general, h);
    PreambleUnframes(general, PrintHeader(h), payload);
    if s.retention.Fixed? {
      PriorityRoundTrip(s.retention.priority, PriorityByte(s.retention.priority));
    }
  }

  /** A specified retention never prints like an unspecified one. */
  lemma RetentionsDiffer(r: WireRetention)
    ensures At(PrintRetention(r), COMMA)
    ensures PrintRetention(r) == UNSPECIFIED <==> r.Unspecified?
  {
    if r.Specified? {
      var k := |RETENTION| + 1;
      assert UNSPECIFIED[k] == Ascii("Unspecified")[0] == 85;
      assert PrintRetention(r)[k] == SPECIFIED[k] == Ascii("Specified")[0] == 83;
    }
  }

  /** Whatever the fast path does not recover, it leaves to the general decoder. */
  lemma HeaderRoundTrip(general: HeaderDecoder, h: Header)
    requires (h.retention.Unspecified? && InRange(h.inserted)) || general(PrintHeader(h)) == Some(h)
    ensures DecodeHeader(general, PrintHeader(h)) == Some(h)
  {
    var tail := PrintRetention(h.retention);
    RetentionsDiffer(h.retention);
    Strips(INSERTED, PrintI64(h.inserted) + tail);
    PrintParse(h.inserted, tail);
  }

  /** Bytes that start with the magic are never read as a legacy payload, whatever the
      payload codec would have made of them. */
  lemma MagicNeverFallsBack<V>(c: Codec<V>, general: HeaderDecoder, bytes: Bytes)
    ensures Unframe(general, bytes) == Ok(None) <==> !(MAGIC <= bytes)
    ensures MAGIC <= bytes && DeserializeSnapshot(c, general, bytes).Ok?
        ==> exists header: Bytes, payload: Bytes ::
              && |header| < TWO_32 && bytes == Preamble(header) + payload
              && DecodeHeader(general, header).Some? && c.deserialize(payload).Some?
  {
    if MAGIC <= bytes && DeserializeSnapshot(c, general, bytes).Ok? {
      var (h, payload) := Unframe(general, bytes).value.value;
      UnframeAccepts(general, bytes, h, payload);
    }
  }

  /** A printed envelope is not mistaken for a frame: it decodes as a legacy snapshot. */
  lemma EnvelopeIsLegacy<V>(c: Codec<V>, general: HeaderDecoder, encoded: Bytes, e: Envelope<V>)
    requires c.deserialize(PrintEntry(encoded, e)) == Some(e) && ValidEntry(c, e)
    ensures DeserializeSnapshot(c, general, PrintEntry(encoded, e)) == Ok(Snapshot(e, e.created, Open))
  {
    assert PrintEntry(encoded, e)[0] == OPEN_BRACE && MAGIC[0] == 65;
  }

  /** The frame, byte by byte: the magic text with its final zero, the version, the header's
      length with the most significant byte first, the header and the payload. */
  lemma FrameLayout(h: Header, payload: Bytes)
    requires ValidHeader(h)
    ensures Frame(h, payload).Ok?
    ensures var b := Frame(h, payload).value; var n := |PrintHeader(h)|;
      && |b| == 13 + n + |payload|
      && b[..7] == Ascii("AMALGAM") && b[7] == 0 && b[8] == 2
      && n == 0x100_0000 * b[9] as int + 0x1_0000 * b[10] as int + 0x100 * b[11] as int + b[12] as int
      && b[13..13 + n] == PrintHeader(h) && b[13 + n..] == payload
  {
    HeaderFits(h);
    var header := PrintHeader(h);
    var b := Preamble(header) + payload;
    BigEndianRoundTrip(|header|);
    assert b[..7] == MAGIC[..7] && MAGIC[..7] == Ascii("AMALGAM");
    assert b[9] == BigEndian(|header|)[0] && b[10] == BigEndian(|header|)[1] && b[11] == BigEndian(|header|)[2] && b[12] == BigEndian(|header|)[3];
    assert b[13..13 + |header|] == header && b[13 + |header|..] == payload;
  }

  /** The persisted priorities. */
  lemma PriorityBytes(p: Priority)
    ensures PriorityByte(p) == (if p.Low? then 1 else if p.Normal? then 2 else if p.High? then 3 else 4)
  {
  }
}
