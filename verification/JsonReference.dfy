/** An independent decoder for the L2 envelope, read off RFC 8259 (objects in section 4,
    arrays in section 5, numbers in section 6, strings in section 7): members in any order,
    whitespace anywhere, escapes, unknown members skipped, duplicates refused. The fast path
    falls back to such a decoder, and must never be distinguishable from it. */
module JsonReference {
  import opened Prelude
  import opened CodecNumbers
  import opened CodecEnvelope

  // ---- Tokens ---------------------------------------------------------------------------

  function SkipWs(b: Bytes): (r: Bytes)
    ensures |r| <= |b|
  {
    if b != [] && b[0] in {0x20, 0x09, 0x0A, 0x0D} then SkipWs(b[1..]) else b
  }

  function Hex(b: Byte): Option<nat> {
    if IsDigit(b) then Some(b - ZERO)
    else if 65 <= b <= 70 then Some(b - 55)
    else if 97 <= b <= 102 then Some(b - 87)
    else None
  }

  /** Four hexadecimal digits. */
  function Hex4(b: Bytes): (r: Option<nat>)
    ensures r.Some? ==> |b| >= 4 && r.value < 0x1_0000
  {
    if |b| < 4 then None
    else
      var h0 :- Hex(b[0]);
      var h1 :- Hex(b[1]);
      var h2 :- Hex(b[2]);
      var h3 :- Hex(b[3]);
      Some(((h0 * 16 + h1) * 16 + h2) * 16 + h3)
  }

  function Utf8(c: nat): Bytes
    requires c < 0x11_0000
  {
    if c < 0x80 then [c]
    else if c < 0x800 then [0xC0 + c / 64, 0x80 + c % 64]
    else if c < 0x1_0000 then [0xE0 + c / 4096, 0x80 + c / 64 % 64, 0x80 + c % 64]
    else [0xF0 + c / 262144, 0x80 + c / 4096 % 64, 0x80 + c / 64 % 64, 0x80 + c % 64]
  }

  /** The characters after `\u`, joining a surrogate pair: the text and the bytes consumed. */
  function UnicodeEscape(b: Bytes): (r: Option<(Bytes, nat)>)
    ensures r.Some? ==> 0 < r.value.1 <= |b|
  {
    var unit :- Hex4(b);
    if 0xDC00 <= unit <= 0xDFFF then None
    else if 0xD800 <= unit <= 0xDBFF then
      if |b| < 10 || b[4] != BACKSLASH || b[5] != 117 then None
      else
        var low :- Hex4(b[6..]);
        if 0xDC00 <= low <= 0xDFFF
        then Some((Utf8(0x1_0000 + (unit - 0xD800) * 0x400 + (low - 0xDC00)), 10))
        else None
    else Some((Utf8(unit), 4))
  }

  /** The characters after a backslash. */
  function Escape(b: Bytes): (r: Option<(Bytes, nat)>)
    ensures r.Some? ==> 0 < r.value.1 <= |b|
  {
    if b == [] then None
    else match b[0]
      case 34 => Some(([0x22], 1))
      case 92 => Some(([0x5C], 1))
      case 47 => Some(([0x2F], 1))
      case 98 => Some(([0x08], 1))
      case 102 => Some(([0x0C], 1))
      case 110 => Some(([0x0A], 1))
      case 114 => Some(([0x0D], 1))
      case 116 => Some(([0x09], 1))
      case 117 =>
        var (text, n) :- UnicodeEscape(b[1..]);
        Some((text, n + 1))
      case _ => None
  }

  /** Everything after the opening quote, through the closing one. */
  function Text(b: Bytes): (r: Option<(Bytes, Bytes)>)
    ensures r.Some? ==> |r.value.1| < |b|
    decreases |b|
  {
    if b == [] || b[0] < 0x20 then None
    else if b[0] == QUOTE then Some(([], b[1..]))
    else if b[0] == BACKSLASH then
      var (head, n) :- Escape(b[1..]);
      var (tail, rest) :- Text(b[1 + n..]);
      Some((head + tail, rest))
    else
      var (tail, rest) :- Text(b[1..]);
      Some(([b[0]] + tail, rest))
  }

  function JsonString(b: Bytes): (r: Option<(Bytes, Bytes)>)
    ensures r.Some? ==> |r.value.1| < |b|
  {
    if b == [] || b[0] != QUOTE then None
    else
      var (text, rest) :- Text(b[1..]);
      if ValidUtf8(text) then Some((text, rest)) else None
  }

  /** The text starts with an integer literal spelled `-0`. */
  predicate NegativeZero(b: Bytes) { |b| > 1 && b[0] == MINUS && b[1] == ZERO && (|b| > 2 ==> !IsDigit(b[2])) }

  /** A number with an integral literal within the i64 range. Section 6 of RFC 8259 gives
      `-0` the grammar of an integer; a decoder that keeps the sign of zero reads it as a
      float and refuses it for an integer, which is what `admitsNegativeZero` decides. */
  function JsonInt(admitsNegativeZero: bool, b: Bytes): (r: Option<(int, Bytes)>)
    ensures r.Some? ==> |r.value.1| < |b|
  {
    var negative := b != [] && b[0] == MINUS;
    var digits := if negative then b[1..] else b;
    var n := DigitRun(digits);
    if n == 0 || (n > 1 && digits[0] == ZERO) then None
    else if NegativeZero(b) && !admitsNegativeZero then None
    else
      var rest := digits[n..];
      var v := if negative then -(Value(digits[..n]) as int) else Value(digits[..n]);
      if rest != [] && rest[0] in {46, 69, 101} then None
      else if -(MAX_I64 as int) - 1 <= v <= MAX_I64 then Some((v, rest))
      else None
  }

  function JsonLiteral(b: Bytes, word: Bytes): (r: Option<Bytes>)
    ensures r.Some? ==> |r.value| <= |b|
  {
    StripPrefix(b, word)
  }

  function JsonBool(b: Bytes): (r: Option<(bool, Bytes)>)
    ensures r.Some? ==> |r.value.1| <= |b|
  {
    if JsonLiteral(b, TRUE).Some? then Some((true, JsonLiteral(b, TRUE).value))
    else
      var rest :- JsonLiteral(b, FALSE);
      Some((false, rest))
  }

  /** Elements of a nonempty array of strings, through the closing bracket. */
  function JsonStrings(b: Bytes): (r: Option<(seq<Bytes>, Bytes)>)
    ensures r.Some? ==> |r.value.1| < |b|
    decreases |b|
  {
    var (text, after) :- JsonString(SkipWs(b));
    var next := SkipWs(after);
    if [COMMA] <= next then
      var (texts, rest) :- JsonStrings(next[1..]);
      Some(([text] + texts, rest))
    else if [CLOSE_BRACKET] <= next then Some(([text], next[1..]))
    else None
  }

  function JsonStringArray(b: Bytes): (r: Option<(seq<Bytes>, Bytes)>)
    ensures r.Some? ==> |r.value.1| <= |b|
  {
    if !([OPEN_BRACKET] <= b) then None
    else
      var next := SkipWs(b[1..]);
      if [CLOSE_BRACKET] <= next then Some(([], next[1..])) else JsonStrings(next)
  }

  // ---- Skipping the value of an unknown member --------------------------------------------

  function SkipDigits(b: Bytes): (r: Option<Bytes>)
    ensures r.Some? ==> |r.value| < |b|
  {
    if DigitRun(b) == 0 then None else Some(b[DigitRun(b)..])
  }

  function SkipNumber(b: Bytes): (r: Option<Bytes>)
    ensures r.Some? ==> |r.value| < |b|
  {
    var digits := if [MINUS] <= b then b[1..] else b;
    var b1 :- SkipDigits(digits);
    if digits[0] == ZERO && DigitRun(digits) > 1 then None
    else
      var b2 :- if [46] <= b1 then SkipDigits(b1[1..]) else Some(b1);
      if b2 != [] && b2[0] in {69, 101} then
        var e := b2[1..];
        SkipDigits(if e != [] && e[0] in {43, MINUS} then e[1..] else e)
      else Some(b2)
  }

  function SkipValue(b: Bytes): (r: Option<Bytes>)
    ensures r.Some? ==> |r.value| < |b|
    decreases |b|, 0
  {
    if b == [] then None
    else if b[0] == QUOTE then
      var (_, rest) :- JsonString(b);
      Some(rest)
    else if b[0] == OPEN_BRACE then
      var next := SkipWs(b[1..]);
      if [CLOSE_BRACE] <= next then Some(next[1..]) else SkipElements(next, CLOSE_BRACE)
    else if b[0] == OPEN_BRACKET then
      var next := SkipWs(b[1..]);
      if [CLOSE_BRACKET] <= next then Some(next[1..]) else SkipElements(next, CLOSE_BRACKET)
    else if TRUE <= b then Some(b[4..])
    else if FALSE <= b then Some(b[5..])
    else if NULL <= b then Some(b[4..])
    else SkipNumber(b)
  }

  /** Members of an object or elements of an array, through the closing character. */
  function SkipElements(b: Bytes, close: Byte): (r: Option<Bytes>)
    ensures r.Some? ==> |r.value| < |b|
    decreases |b|, 1
  {
    var start :- if close == CLOSE_BRACE then SkipName(b) else Some(SkipWs(b));
    var rest :- SkipValue(start);
    var next := SkipWs(rest);
    if [COMMA] <= next then SkipElements(next[1..], close)
    else if [close] <= next then Some(next[1..])
    else None
  }

  function SkipName(b: Bytes): (r: Option<Bytes>)
    ensures r.Some? ==> |r.value| < |b|
  {
    var (_, rest) :- Name(b);
    Some(SkipWs(rest))
  }

  /** A member's name through its colon. */
  function Name(b: Bytes): (r: Option<(Bytes, Bytes)>)
    ensures r.Some? ==> |r.value.1| < |b|
  {
    var (name, after) :- JsonString(SkipWs(b));
    var next := SkipWs(after);
    if [COLON] <= next then Some((name, next[1..])) else None
  }

  // ---- The envelope object -----------------------------------------------------------------

  /** The members seen so far. */
  datatype Partial<V> = Partial(
    value: Option<V>, created: Option<int>, logical: Option<int>, physical: Option<int>,
    failSafe: Option<bool>, etag: Option<Option<Bytes>>, lastModified: Option<Option<int>>,
    tags: Option<seq<Bytes>>)

  function Nothing<V>(): Partial<V> { Partial(None, None, None, None, None, None, None, None) }

  /** Absent optional members default to none; the others are required. */
  function Complete<V>(p: Partial<V>): Option<Envelope<V>> {
    var value :- p.value;
    var created :- p.created;
    var logical :- p.logical;
    var physical :- p.physical;
    var failSafe :- p.failSafe;
    var tags :- p.tags;
    Some(Envelope(value, created, logical, physical, failSafe,
      if p.etag.None? then None else p.etag.value,
      if p.lastModified.None? then None else p.lastModified.value, tags))
  }

  function NullOrString(b: Bytes): (r: Option<(Option<Bytes>, Bytes)>)
    ensures r.Some? ==> |r.value.1| <= |b|
  {
    if NULL <= b then Some((None, b[|NULL|..]))
    else
      var (text, rest) :- JsonString(b);
      Some((Some(text), rest))
  }

  function NullOrInt(admits: bool, b: Bytes): (r: Option<(Option<int>, Bytes)>)
    ensures r.Some? ==> |r.value.1| <= |b|
  {
    if NULL <= b then Some((None, b[|NULL|..]))
    else
      var (ticks, rest) :- JsonInt(admits, b);
      Some((Some(ticks), rest))
  }

  /** One member's value, recorded under its name. */
  function Member<V>(admits: bool, decode: ValueDecoder<V>, p: Partial<V>, name: Bytes, b: Bytes): (r: Option<(Partial<V>, Bytes)>)
    ensures r.Some? ==> |r.value.1| <= |b|
  {
    if name == VALUE_NAME then
      var (v, n) :- decode(b);
      if p.value.Some? || n > |b| then None else Some((p.(value := Some(v)), b[n..]))
    else
      var s := SkipWs(b);
      if name == CREATED_NAME then
        var (t, rest) :- JsonInt(admits, s);
        if p.created.Some? then None else Some((p.(created := Some(t)), rest))
      else if name == LOGICAL_NAME then
        var (t, rest) :- JsonInt(admits, s);
        if p.logical.Some? then None else Some((p.(logical := Some(t)), rest))
      else if name == PHYSICAL_NAME then
        var (t, rest) :- JsonInt(admits, s);
        if p.physical.Some? then None else Some((p.(physical := Some(t)), rest))
      else if name == FAIL_SAFE_NAME then
        var (f, rest) :- JsonBool(s);
        if p.failSafe.Some? then None else Some((p.(failSafe := Some(f)), rest))
      else if name == ETAG_NAME then
        var (e, rest) :- NullOrString(s);
        if p.etag.Some? then None else Some((p.(etag := Some(e)), rest))
      else if name == LAST_MODIFIED_NAME then
        var (t, rest) :- NullOrInt(admits, s);
        if p.lastModified.Some? then None else Some((p.(lastModified := Some(t)), rest))
      else if name == TAGS_NAME then
        var (tags, rest) :- JsonStringArray(s);
        if p.tags.Some? then None else Some((p.(tags := Some(tags)), rest))
      else
        var rest :- SkipValue(s);
        Some((p, rest))
  }

  /** Members of a nonempty object, through the closing brace. */
  function Members<V>(admits: bool, decode: ValueDecoder<V>, p: Partial<V>, b: Bytes): (r: Option<(Partial<V>, Bytes)>)
    decreases |b|
  {
    var (name, after) :- Name(b);
    var (q, rest) :- Member(admits, decode, p, name, after);
    var next := SkipWs(rest);
    if [COMMA] <= next then Members(admits, decode, q, next[1..])
    else if [CLOSE_BRACE] <= next then Some((q, next[1..]))
    else None
  }

  /** The general decoder: one object and nothing after it but whitespace. */
  function GeneralEntry<V>(admits: bool, decode: ValueDecoder<V>, bytes: Bytes): Option<Envelope<V>> {
    var b := SkipWs(bytes);
    if !([OPEN_BRACE] <= b) then None
    else if [CLOSE_BRACE] <= SkipWs(b[1..]) then None
    else
      var (p, rest) :- Members(admits, decode, Nothing(), b[1..]);
      if SkipWs(rest) == [] then Complete(p) else None
  }

  // ---- Agreement, token by token -------------------------------------------------------------

  lemma {:induction false} AsciiIsUtf8(s: Bytes)
    requires forall i | 0 <= i < |s| :: s[i] < 0x80
    ensures ValidUtf8(s)
    decreases |s|
  {
    if s != [] {
      AsciiIsUtf8(s[1..]);
    }
  }

  /** The names hold letters and underscores. */
  lemma NameIsPlain(name: string)
    requires forall c | c in name :: c == '_' || 'a' <= c <= 'z'
    ensures PlainText(Ascii(name))
  {
    assert forall i | 0 <= i < |name| :: name[i] in name;
    AsciiIsUtf8(Ascii(name));
  }

  lemma {:induction false} PlainTextReads(s: Bytes, rest: Bytes)
    requires Plain(s)
    ensures Text(s + [QUOTE] + rest) == Some((s, rest))
    decreases |s|
  {
    var b := s + [QUOTE] + rest;
    if s == [] {
      assert b == [QUOTE] + rest && b[1..] == rest;
    } else {
      assert b[1..] == s[1..] + [QUOTE] + rest;
      PlainTextReads(s[1..], rest);
      assert [s[0]] + s[1..] == s && b[0] == s[0];
    }
  }

  /** Plain UTF-8 text between quotes denotes itself. */
  lemma PrintedStringReads(s: Bytes, rest: Bytes)
    requires PlainText(s)
    ensures JsonString(PrintString(s) + rest) == Some((s, rest))
  {
    var b := PrintString(s) + rest;
    assert b[1..] == s + [QUOTE] + rest;
    PlainTextReads(s, rest);
  }

  lemma CanonicalStringAgrees(b: Bytes)
    requires CanonicalString(b).Some?
    ensures JsonString(b) == CanonicalString(b) && SkipWs(b) == b
  {
    StringAccepted(b);
    var (text, rest) := CanonicalString(b).value;
    PrintedStringReads(text, rest);
    assert b[0] == QUOTE;
  }

  /** The one accepted integer a decoder may refuse is `-0`. */
  lemma CanonicalI64Agrees(admits: bool, b: Bytes)
    requires CanonicalI64(b).Some? && At(CanonicalI64(b).value.1, COMMA)
    ensures JsonInt(admits, b) == (if !admits && NegativeZero(b) then None else CanonicalI64(b))
    ensures SkipWs(b) == b && !(NULL <= b)
  {
    assert NULL[0] == 110;
  }

  lemma {:induction false} TagListAgrees(b: Bytes)
    requires TagList(b).Some?
    ensures JsonStrings(b) == TagList(b)
    decreases |b|
  {
    CanonicalStringAgrees(b);
    StringAccepted(b);
    var after := CanonicalString(b).value.1;
    assert SkipWs(after) == after;
    if after[0] == COMMA {
      TagListAgrees(after[1..]);
    }
  }

  lemma CanonicalTagsAgree(b: Bytes)
    requires CanonicalTags(b).Some?
    ensures JsonStringArray([OPEN_BRACKET] + b) == CanonicalTags(b)
  {
    assert ([OPEN_BRACKET] + b)[1..] == b;
    if !([CLOSE_BRACKET] <= b) {
      CanonicalStringAgrees(b);
      TagListAgrees(b);
    }
  }

  // ---- Agreement, member by member -------------------------------------------------------------

  /** A literal member prefix is a separator followed by a JSON name and its colon. */
  lemma PrefixReads(b: Bytes, separator: Byte, name: Bytes)
    requires PlainText(name) && StripPrefix(b, Prefix(separator, name)).Some?
    ensures At(b, separator)
    ensures Name(b[1..]) == Some((name, StripPrefix(b, Prefix(separator, name)).value))
  {
    var rest := StripPrefix(b, Prefix(separator, name)).value;
    assert b == Prefix(separator, name) + rest;
    assert b[1..] == PrintString(name) + ([COLON] + rest);
    PrintedStringReads(name, [COLON] + rest);
    assert ([COLON] + rest)[1..] == rest;
    assert b[1..][0] == QUOTE;
  }

  /** A member followed by a comma hands over to the next one. */
  lemma NextMember<V>(admits: bool, decode: ValueDecoder<V>, p: Partial<V>, b: Bytes, name: Bytes, s: Bytes, q: Partial<V>, rest: Bytes)
    requires Name(b) == Some((name, s)) && Member(admits, decode, p, name, s) == Some((q, rest)) && At(rest, COMMA)
    ensures Members(admits, decode, p, b) == Members(admits, decode, q, rest[1..])
  {
  }

  /** A member that does not decode ends the object's decoding. */
  lemma StopsAt<V>(admits: bool, decode: ValueDecoder<V>, p: Partial<V>, b: Bytes, name: Bytes, s: Bytes)
    requires Name(b) == Some((name, s)) && Member(admits, decode, p, name, s) == None
    ensures Members(admits, decode, p, b) == None
  {
  }

  /** The decoder refuses the integer behind `prefix` for its spelling. */
  predicate Refused(admits: bool, b: Bytes, prefix: Bytes) {
    !admits && prefix <= b && NegativeZero(b[|prefix|..])
  }

  lemma ValueStep<V>(admits: bool, decode: ValueDecoder<V>, b: Bytes)
    requires ValueField(decode, b).Some? && At(ValueField(decode, b).value.1, COMMA)
    ensures At(b, OPEN_BRACE) && At(b[1..], QUOTE)
    ensures var (v, rest) := ValueField(decode, b).value;
      Members(admits, decode, Nothing(), b[1..]) == Members(admits, decode, Nothing<V>().(value := Some(v)), rest[1..])
  {
    var (v, rest) := ValueField(decode, b).value;
    NameIsPlain("value");
    PrefixReads(b, OPEN_BRACE, VALUE_NAME);
    NextMember(admits, decode, Nothing(), b[1..], VALUE_NAME, StripPrefix(b, VALUE).value, Nothing<V>().(value := Some(v)), rest);
  }

  lemma CreatedStep<V>(admits: bool, decode: ValueDecoder<V>, p: Partial<V>, b: Bytes)
    requires p.created.None? && TickField(b, CREATED).Some? && At(TickField(b, CREATED).value.1, COMMA)
    ensures At(b, COMMA)
    ensures var (t, rest) := TickField(b, CREATED).value;
      Members(admits, decode, p, b[1..])
      == if Refused(admits, b, CREATED) then None else Members(admits, decode, p.(created := Some(t)), rest[1..])
  {
    var (t, rest) := TickField(b, CREATED).value;
    var s := StripPrefix(b, CREATED).value;
    NameIsPlain("created_ticks");
    PrefixReads(b, COMMA, CREATED_NAME);
    CanonicalI64Agrees(admits, s);
    if Refused(admits, b, CREATED) {
      StopsAt(admits, decode, p, b[1..], CREATED_NAME, s);
    } else {
      NextMember(admits, decode, p, b[1..], CREATED_NAME, s, p.(created := Some(t)), rest);
    }
  }

  lemma LogicalStep<V>(admits: bool, decode: ValueDecoder<V>, p: Partial<V>, b: Bytes)
    requires p.logical.None? && TickField(b, LOGICAL).Some? && At(TickField(b, LOGICAL).value.1, COMMA)
    ensures At(b, COMMA)
    ensures var (t, rest) := TickField(b, LOGICAL).value;
      Members(admits, decode, p, b[1..])
      == if Refused(admits, b, LOGICAL) then None else Members(admits, decode, p.(logical := Some(t)), rest[1..])
  {
    var (t, rest) := TickField(b, LOGICAL).value;
    var s := StripPrefix(b, LOGICAL).value;
    NameIsPlain("logical_expiration_ticks");
    PrefixReads(b, COMMA, LOGICAL_NAME);
    CanonicalI64Agrees(admits, s);
    if Refused(admits, b, LOGICAL) {
      StopsAt(admits, decode, p, b[1..], LOGICAL_NAME, s);
    } else {
      NextMember(admits, decode, p, b[1..], LOGICAL_NAME, s, p.(logical := Some(t)), rest);
    }
  }

  lemma PhysicalStep<V>(admits: bool, decode: ValueDecoder<V>, p: Partial<V>, b: Bytes)
    requires p.physical.None? && TickField(b, PHYSICAL).Some? && At(TickField(b, PHYSICAL).value.1, COMMA)
    ensures At(b, COMMA)
    ensures var (t, rest) := TickField(b, PHYSICAL).value;
      Members(admits, decode, p, b[1..])
      == if Refused(admits, b, PHYSICAL) then None else Members(admits, decode, p.(physical := Some(t)), rest[1..])
  {
    var (t, rest) := TickField(b, PHYSICAL).value;
    var s := StripPrefix(b, PHYSICAL).value;
    NameIsPlain("physical_expiration_ticks");
    PrefixReads(b, COMMA, PHYSICAL_NAME);
    CanonicalI64Agrees(admits, s);
    if Refused(admits, b, PHYSICAL) {
      StopsAt(admits, decode, p, b[1..], PHYSICAL_NAME, s);
    } else {
      NextMember(admits, decode, p, b[1..], PHYSICAL_NAME, s, p.(physical := Some(t)), rest);
    }
  }

  lemma BoolAgrees(s: Bytes)
    requires FALSE <= s || TRUE <= s
    ensures SkipWs(s) == s
    ensures JsonBool(s) == Some((!(FALSE <= s), if FALSE <= s then s[|FALSE|..] else s[|TRUE|..]))
  {
    assert FALSE[0] == 102 && TRUE[0] == 116;
  }

  lemma FailSafeStep<V>(admits: bool, decode: ValueDecoder<V>, p: Partial<V>, b: Bytes)
    requires p.failSafe.None? && BoolField(b).Some? && At(BoolField(b).value.1, COMMA)
    ensures At(b, COMMA)
    ensures var (f, rest) := BoolField(b).value;
      Members(admits, decode, p, b[1..]) == Members(admits, decode, p.(failSafe := Some(f)), rest[1..])
  {
    var (f, rest) := BoolField(b).value;
    NameIsPlain("is_from_fail_safe");
    PrefixReads(b, COMMA, FAIL_SAFE_NAME);
    BoolAgrees(StripPrefix(b, FAIL_SAFE).value);
    NextMember(admits, decode, p, b[1..], FAIL_SAFE_NAME, StripPrefix(b, FAIL_SAFE).value, p.(failSafe := Some(f)), rest);
  }

  lemma EtagStep<V>(admits: bool, decode: ValueDecoder<V>, p: Partial<V>, b: Bytes)
    requires p.etag.None? && EtagField(b).Some? && At(EtagField(b).value.1, COMMA)
    ensures At(b, COMMA)
    ensures var (e, rest) := EtagField(b).value;
      Members(admits, decode, p, b[1..]) == Members(admits, decode, p.(etag := Some(e)), rest[1..])
  {
    var (e, rest) := EtagField(b).value;
    NameIsPlain("etag");
    PrefixReads(b, COMMA, ETAG_NAME);
    var s := StripPrefix(b, ETAG).value;
    if NULL <= s {
      assert s[0] == NULL[0] == 110;
    } else {
      CanonicalStringAgrees(s);
    }
    NextMember(admits, decode, p, b[1..], ETAG_NAME, s, p.(etag := Some(e)), rest);
  }

  /** What the general decoder makes of an accepted last-modified value. */
  lemma NullOrIntAgrees(admits: bool, b: Bytes)
    requires LastModifiedField(b).Some? && At(LastModifiedField(b).value.1, COMMA)
    ensures var s := StripPrefix(b, LAST_MODIFIED).value;
      SkipWs(s) == s && NullOrInt(admits, s) == if Refused(admits, b, LAST_MODIFIED) then None else LastModifiedField(b)
  {
    var s := StripPrefix(b, LAST_MODIFIED).value;
    if NULL <= s {
      assert s[0] == NULL[0] == 110;
    } else {
      CanonicalI64Agrees(admits, s);
    }
  }

  lemma LastModifiedMember<V>(admits: bool, decode: ValueDecoder<V>, p: Partial<V>, s: Bytes)
    requires p.lastModified.None? && SkipWs(s) == s
    ensures Member(admits, decode, p, LAST_MODIFIED_NAME, s)
         == if NullOrInt(admits, s).None? then None
            else Some((p.(lastModified := Some(NullOrInt(admits, s).value.0)), NullOrInt(admits, s).value.1))
  {
  }

  lemma LastModifiedStep<V>(admits: bool, decode: ValueDecoder<V>, p: Partial<V>, b: Bytes)
    requires p.lastModified.None? && LastModifiedField(b).Some? && At(LastModifiedField(b).value.1, COMMA)
    ensures At(b, COMMA)
    ensures var (t, rest) := LastModifiedField(b).value;
      Members(admits, decode, p, b[1..])
      == if Refused(admits, b, LAST_MODIFIED) then None else Members(admits, decode, p.(lastModified := Some(t)), rest[1..])
  {
    var (t, rest) := LastModifiedField(b).value;
    var s := StripPrefix(b, LAST_MODIFIED).value;
    NameIsPlain("last_modified_ticks");
    PrefixReads(b, COMMA, LAST_MODIFIED_NAME);
    NullOrIntAgrees(admits, b);
    LastModifiedMember(admits, decode, p, s);
    if Refused(admits, b, LAST_MODIFIED) {
      StopsAt(admits, decode, p, b[1..], LAST_MODIFIED_NAME, s);
    } else {
      NextMember(admits, decode, p, b[1..], LAST_MODIFIED_NAME, s, p.(lastModified := Some(t)), rest);
    }
  }

  /** The tags prefix carries the array's opening bracket. */
  lemma TagsPrefixReads(b: Bytes)
    requires StripPrefix(b, TAGS).Some?
    ensures At(b, COMMA)
    ensures Name(b[1..]) == Some((TAGS_NAME, [OPEN_BRACKET] + StripPrefix(b, TAGS).value))
  {
    var s := StripPrefix(b, TAGS).value;
    var prefix := Prefix(COMMA, TAGS_NAME);
    assert b == TAGS + s && TAGS + s == prefix + ([OPEN_BRACKET] + s);
    Strips(prefix, [OPEN_BRACKET] + s);
    NameIsPlain("tags");
    PrefixReads(b, COMMA, TAGS_NAME);
  }

  lemma TagsMember<V>(admits: bool, decode: ValueDecoder<V>, p: Partial<V>, s: Bytes)
    requires p.tags.None? && CanonicalTags(s).Some?
    ensures var (tags, rest) := CanonicalTags(s).value;
      Member(admits, decode, p, TAGS_NAME, [OPEN_BRACKET] + s) == Some((p.(tags := Some(tags)), rest))
  {
    CanonicalTagsAgree(s);
    assert TAGS_NAME[0] != ETAG_NAME[0];
  }

  lemma TagsStep<V>(admits: bool, decode: ValueDecoder<V>, p: Partial<V>, b: Bytes)
    requires p.tags.None? && TagsField(b).Some? && TagsField(b).value.1 == [CLOSE_BRACE]
    ensures At(b, COMMA)
    ensures Members(admits, decode, p, b[1..]) == Some((p.(tags := Some(TagsField(b).value.0)), []))
  {
    TagsPrefixReads(b);
    TagsMember(admits, decode, p, StripPrefix(b, TAGS).value);
    LastMember(admits, decode, p, b[1..], TAGS_NAME, [OPEN_BRACKET] + StripPrefix(b, TAGS).value, p.(tags := Some(TagsField(b).value.0)));
  }

  /** A member followed by the closing brace ends the object. */
  lemma LastMember<V>(admits: bool, decode: ValueDecoder<V>, p: Partial<V>, b: Bytes, name: Bytes, s: Bytes, q: Partial<V>)
    requires Name(b) == Some((name, s)) && Member(admits, decode, p, name, s) == Some((q, [CLOSE_BRACE]))
    ensures Members(admits, decode, p, b) == Some((q, []))
  {
    assert [CLOSE_BRACE][1..] == [];
  }

  /** Where the fast path reads the last-modified member of an accepted trailer. */
  function LastModifiedAt(b: Bytes): Bytes
    requires Trailer(b).Some?
  {
    EtagField(BoolField(b).value.1).value.1
  }

  /** The members from the fail-safe flag on, as the fast path reads them. */
  lemma TrailerAgrees<V>(admits: bool, decode: ValueDecoder<V>, p: Partial<V>, b: Bytes)
    requires p.failSafe.None? && p.etag.None? && p.lastModified.None? && p.tags.None? && Trailer(b).Some?
    ensures At(b, COMMA)
    ensures var (failSafe, etag, lastModified, tags) := Trailer(b).value;
      Members(admits, decode, p, b[1..])
      == if Refused(admits, LastModifiedAt(b), LAST_MODIFIED) then None
         else Some((p.(failSafe := Some(failSafe), etag := Some(etag), lastModified := Some(lastModified), tags := Some(tags)), []))
  {
    var (failSafe, b5) := BoolField(b).value;
    var (etag, b6) := EtagField(b5).value;
    var (lastModified, b7) := LastModifiedField(b6).value;
    var p5 := p.(failSafe := Some(failSafe));
    var p6 := p5.(etag := Some(etag));
    var p7 := p6.(lastModified := Some(lastModified));
    TagsStep(admits, decode, p7, b7);
    LastModifiedStep(admits, decode, p6, b6);
    EtagStep(admits, decode, p5, b5);
    FailSafeStep(admits, decode, p, b);
  }

  predicate TicksRefused(admits: bool, b: Bytes)
    requires Ticks(b).Some?
  {
    var b2 := TickField(b, CREATED).value.1;
    var b3 := TickField(b2, LOGICAL).value.1;
    Refused(admits, b, CREATED) || Refused(admits, b2, LOGICAL) || Refused(admits, b3, PHYSICAL)
  }

  /** The ticks, when another member follows. */
  lemma TicksAgree<V>(admits: bool, decode: ValueDecoder<V>, p: Partial<V>, b: Bytes)
    requires p.created.None? && p.logical.None? && p.physical.None? && Ticks(b).Some? && At(Ticks(b).value.3, COMMA)
    ensures At(b, COMMA)
    ensures var (created, logical, physical, rest) := Ticks(b).value;
      Members(admits, decode, p, b[1..])
      == if TicksRefused(admits, b) then None
         else Members(admits, decode, p.(created := Some(created), logical := Some(logical), physical := Some(physical)), rest[1..])
  {
    var (created, b2) := TickField(b, CREATED).value;
    var (logical, b3) := TickField(b2, LOGICAL).value;
    var p2 := p.(created := Some(created));
    var p3 := p2.(logical := Some(logical));
    PhysicalStep(admits, decode, p3, b3);
    LogicalStep(admits, decode, p2, b2);
    CreatedStep(admits, decode, p, b);
  }

  function Everything<V>(e: Envelope<V>): Partial<V> {
    Partial(Some(e.value), Some(e.created), Some(e.logical), Some(e.physical), Some(e.failSafe),
      Some(e.etag), Some(e.lastModified), Some(e.tags))
  }

  /** One of the created, logical, physical and last-modified integers of an accepted input
      is spelled `-0`. */
  predicate SpellsNegativeZero<V>(decode: ValueDecoder<V>, bytes: Bytes)
    requires CanonicalEntry(decode, bytes).Some?
  {
    var b1 := ValueField(decode, bytes).value.1;
    TicksRefused(false, b1) || Refused(false, LastModifiedAt(Ticks(b1).value.3), LAST_MODIFIED)
  }

  lemma MembersAgree<V>(admits: bool, decode: ValueDecoder<V>, bytes: Bytes)
    requires CanonicalEntry(decode, bytes).Some?
    ensures At(bytes, OPEN_BRACE) && At(bytes[1..], QUOTE)
    ensures Members(admits, decode, Nothing(), bytes[1..])
         == if !admits && SpellsNegativeZero(decode, bytes) then None
            else Some((Everything(CanonicalEntry(decode, bytes).value), []))
  {
    var (value, b1) := ValueField(decode, bytes).value;
    var (created, logical, physical, b4) := Ticks(b1).value;
    var p := Nothing<V>().(value := Some(value));
    var q := p.(created := Some(created), logical := Some(logical), physical := Some(physical));
    TrailerAgrees(admits, decode, q, b4);
    TicksAgree(admits, decode, p, b1);
    ValueStep(admits, decode, bytes);
  }

  lemma WholeObject<V>(admits: bool, decode: ValueDecoder<V>, bytes: Bytes, e: Option<Envelope<V>>)
    requires At(bytes, OPEN_BRACE) && At(bytes[1..], QUOTE)
    requires Members(admits, decode, Nothing(), bytes[1..]) == if e.None? then None else Some((Everything(e.value), []))
    ensures GeneralEntry(admits, decode, bytes) == e
  {
    assert SkipWs(bytes) == bytes && SkipWs(bytes[1..]) == bytes[1..];
  }

  /** Whatever the fast path accepts, the general decoder reads as the same envelope, or
      refuses for an integer spelled `-0`, and nothing else. */
  lemma FastPathAgrees<V>(admits: bool, decode: ValueDecoder<V>, bytes: Bytes)
    requires CanonicalEntry(decode, bytes).Some?
    ensures GeneralEntry(admits, decode, bytes)
         == if !admits && SpellsNegativeZero(decode, bytes) then None else CanonicalEntry(decode, bytes)
  {
    MembersAgree(admits, decode, bytes);
    WholeObject(admits, decode, bytes, if !admits && SpellsNegativeZero(decode, bytes) then None else CanonicalEntry(decode, bytes));
  }

  /** Deserialization as written: the fast path, else the general decoder. */
  function Deserialize<V>(admits: bool, decode: ValueDecoder<V>, bytes: Bytes): Option<Envelope<V>> {
    var fast := CanonicalEntry(decode, bytes);
    if fast.Some? then fast else GeneralEntry(admits, decode, bytes)
  }

  /** The fast path is invisible exactly when the general decoder admits `-0`, or the fast
      path refuses the input, or no integer of the accepted input is spelled `-0`. */
  lemma FastPathInvisible<V>(admits: bool, decode: ValueDecoder<V>, bytes: Bytes)
    ensures Deserialize(admits, decode, bytes) == GeneralEntry(admits, decode, bytes)
       <==> admits || CanonicalEntry(decode, bytes).None? || !SpellsNegativeZero(decode, bytes)
  {
    if CanonicalEntry(decode, bytes).Some? {
      FastPathAgrees(admits, decode, bytes);
    }
  }

  /** With a decoder that reads `-0` as zero, the result is the general decoder's on every
      input. */
  lemma AdmittingDecoderIsMatched<V>(decode: ValueDecoder<V>, bytes: Bytes)
    ensures Deserialize(true, decode, bytes) == GeneralEntry(true, decode, bytes)
  {
    FastPathInvisible(true, decode, bytes);
  }

  /** The bytes of an envelope whose zero creation tick is spelled `-0`. */
  function PrintNegativeZero<V>(encoded: Bytes, e: Envelope<V>): Bytes {
    VALUE + (encoded + (CREATED + ([MINUS, ZERO] + PrintAfterCreated(e))))
  }

  /** Every envelope created at tick zero has such a spelling: the fast path accepts it, and
      a decoder that does not admit `-0` refuses it. */
  lemma NegativeZeroDiffers<V>(decode: ValueDecoder<V>, encoded: Bytes, e: Envelope<V>)
    requires Printable(e) && e.created == 0
    requires decode(encoded + (CREATED + ([MINUS, ZERO] + PrintAfterCreated(e)))) == Some((e.value, |encoded|))
    ensures Deserialize(false, decode, PrintNegativeZero(encoded, e)) == Some(e)
    ensures GeneralEntry(false, decode, PrintNegativeZero(encoded, e)) == None
  {
    var zero, after := [MINUS, ZERO], PrintAfterCreated(e);
    var b1 := CREATED + (zero + after);
    assert At(after, COMMA);
    NegativeZeroReads(after);
    TicksRoundTrip(e, zero);
    TrailerRoundTrip(e);
    ValueFieldRoundTrip(decode, encoded, e.value, b1);
    Strips(CREATED, zero + after);
    assert Refused(false, b1, CREATED);
    FastPathAgrees(false, decode, PrintNegativeZero(encoded, e));
  }

  lemma NegativeZeroReads(rest: Bytes)
    requires At(rest, COMMA)
    ensures CanonicalI64([MINUS, ZERO] + rest) == Some((0, rest)) && NegativeZero([MINUS, ZERO] + rest)
  {
    DigitsRead(true, [ZERO], rest);
    assert ([MINUS, ZERO] + rest)[1..] == [ZERO] + rest;
    assert [ZERO] == PrintNat(0);
  }

  /** One such input, with integers for values. */
  lemma NegativeZeroInput()
    ensures exists decode: ValueDecoder<int>, bytes: Bytes ::
              Deserialize(false, decode, bytes).Some? && GeneralEntry(false, decode, bytes) == None
  {
    var decode: ValueDecoder<int> := (b: Bytes) => Some((7, 1));
    var e := Envelope(7, 0, 0, 0, false, None, None, []);
    NegativeZeroDiffers(decode, [55], e);
    assert Deserialize(false, decode, PrintNegativeZero([55], e)) == Some(e);
  }
}
