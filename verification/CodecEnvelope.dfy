/** The canonical envelope fast path (src/distributed.rs): the exact layout the JSON
    serializer writes for an L2 entry, parsed without a general JSON decoder. */
module CodecEnvelope {
  import opened Prelude
  import opened CodecNumbers

  const QUOTE: Byte := 34
  const COMMA: Byte := 44
  const BACKSLASH: Byte := 92
  const OPEN_BRACE: Byte := 123
  const CLOSE_BRACE: Byte := 125
  const OPEN_BRACKET: Byte := 91
  const CLOSE_BRACKET: Byte := 93
  const COLON: Byte := 58

  function Ascii(s: string): (b: Bytes)
    ensures |b| == |s|
  {
    seq(|s|, i requires 0 <= i < |s| => if s[i] < 128 as char then s[i] as int else 0)
  }

  /** The wire envelope. Strings are their UTF-8 bytes. */
  datatype Envelope<V> = Envelope(
    value: V, created: int, logical: int, physical: int, failSafe: bool,
    etag: Option<Bytes>, lastModified: Option<int>, tags: seq<Bytes>)

  /** Decodes one JSON value, with whatever whitespace precedes it, from the front of the
      input: the value and the number of bytes consumed. */
  type ValueDecoder<!V> = Bytes -> Option<(V, nat)>

  const VALUE_NAME: Bytes := Ascii("value")
  const CREATED_NAME: Bytes := Ascii("created_ticks")
  const LOGICAL_NAME: Bytes := Ascii("logical_expiration_ticks")
  const PHYSICAL_NAME: Bytes := Ascii("physical_expiration_ticks")
  const FAIL_SAFE_NAME: Bytes := Ascii("is_from_fail_safe")
  const ETAG_NAME: Bytes := Ascii("etag")
  const LAST_MODIFIED_NAME: Bytes := Ascii("last_modified_ticks")
  const TAGS_NAME: Bytes := Ascii("tags")

  function PrintString(s: Bytes): Bytes { [QUOTE] + s + [QUOTE] }

  /** A member's literal prefix: the separator before it, its quoted name and a colon. */
  function Prefix(separator: Byte, name: Bytes): Bytes { [separator] + PrintString(name) + [COLON] }

  const VALUE: Bytes := Prefix(OPEN_BRACE, VALUE_NAME)
  const CREATED: Bytes := Prefix(COMMA, CREATED_NAME)
  const LOGICAL: Bytes := Prefix(COMMA, LOGICAL_NAME)
  const PHYSICAL: Bytes := Prefix(COMMA, PHYSICAL_NAME)
  const FAIL_SAFE: Bytes := Prefix(COMMA, FAIL_SAFE_NAME)
  const ETAG: Bytes := Prefix(COMMA, ETAG_NAME)
  const LAST_MODIFIED: Bytes := Prefix(COMMA, LAST_MODIFIED_NAME)
  const TAGS: Bytes := Prefix(COMMA, TAGS_NAME) + [OPEN_BRACKET]
  const TRUE: Bytes := Ascii("true")
  const FALSE: Bytes := Ascii("false")
  const NULL: Bytes := Ascii("null")

  function StripPrefix(b: Bytes, p: Bytes): Option<Bytes> {
    if p <= b then Some(b[|p|..]) else None
  }

  predicate At(b: Bytes, c: Byte) { b != [] && b[0] == c }

  // ---- UTF-8 -----------------------------------------------------------------------

  predicate Continues(s: Bytes, i: nat, lo: Byte, hi: Byte) { i < |s| && lo <= s[i] <= hi }

  /** Length of the well-formed UTF-8 sequence at the front, 0 if there is none. */
  function Utf8Length(s: Bytes): (n: nat)
    ensures n <= |s|
  {
    if s == [] then 0
    else if s[0] < 0x80 then 1
    else if 0xC2 <= s[0] <= 0xDF then (if Continues(s, 1, 0x80, 0xBF) then 2 else 0)
    else if 0xE0 <= s[0] <= 0xEF then
      var lo := if s[0] == 0xE0 then 0xA0 else 0x80;
      var hi := if s[0] == 0xED then 0x9F else 0xBF;
      if Continues(s, 1, lo, hi) && Continues(s, 2, 0x80, 0xBF) then 3 else 0
    else if 0xF0 <= s[0] <= 0xF4 then
      var lo := if s[0] == 0xF0 then 0x90 else 0x80;
      var hi := if s[0] == 0xF4 then 0x8F else 0xBF;
      if Continues(s, 1, lo, hi) && Continues(s, 2, 0x80, 0xBF) && Continues(s, 3, 0x80, 0xBF) then 4 else 0
    else 0
  }

  predicate ValidUtf8(s: Bytes)
    decreases |s|
  {
    s == [] || (Utf8Length(s) > 0 && ValidUtf8(s[Utf8Length(s)..]))
  }

  // ---- Strings -----------------------------------------------------------------------

  /** Bytes a canonical string may hold: no quote, no escape, no control character. */
  predicate Plain(s: Bytes) {
    forall i | 0 <= i < |s| :: s[i] != QUOTE && s[i] != BACKSLASH && s[i] >= 0x20
  }

  /** Position of the first quote, or the length. */
  function QuoteAt(s: Bytes): (n: nat)
    ensures n <= |s| && (n < |s| ==> s[n] == QUOTE) && forall i | 0 <= i < n :: s[i] != QUOTE
  {
    if s == [] || s[0] == QUOTE then 0 else 1 + QuoteAt(s[1..])
  }

  function CanonicalString(b: Bytes): Option<(Bytes, Bytes)> {
    var rest :- StripPrefix(b, [QUOTE]);
    var n := QuoteAt(rest);
    if n == |rest| || !Plain(rest[..n]) || !ValidUtf8(rest[..n]) then None
    else Some((rest[..n], rest[n + 1..]))
  }

  lemma {:induction false} QuoteAtFirst(s: Bytes, rest: Bytes)
    requires forall i | 0 <= i < |s| :: s[i] != QUOTE
    ensures QuoteAt(s + [QUOTE] + rest) == |s|
    decreases |s|
  {
    if s == [] {
      assert s + [QUOTE] + rest == [QUOTE] + rest;
    } else {
      assert (s + [QUOTE] + rest)[1..] == s[1..] + [QUOTE] + rest;
      QuoteAtFirst(s[1..], rest);
    }
  }

  lemma StringRoundTrip(s: Bytes, rest: Bytes)
    requires Plain(s) && ValidUtf8(s)
    ensures CanonicalString(PrintString(s) + rest) == Some((s, rest))
  {
    var after := s + [QUOTE] + rest;
    QuoteAtFirst(s, rest);
    assert PrintString(s) + rest == [QUOTE] + after;
    assert ([QUOTE] + after)[1..] == after;
    assert after[..|s|] == s && after[|s| + 1..] == rest;
  }

  /** An accepted string was printed: quote, plain UTF-8 text, quote. */
  lemma StringAccepted(b: Bytes)
    requires CanonicalString(b).Some?
    ensures var (text, rest) := CanonicalString(b).value;
      b == PrintString(text) + rest && Plain(text) && ValidUtf8(text) && |rest| < |b|
  {
  }

  // ---- Tags ----------------------------------------------------------------------------

  /** Tags after the opening bracket, when there is at least one. */
  function TagList(b: Bytes): Option<(seq<Bytes>, Bytes)>
    decreases |b|
  {
    var (tag, after) :- CanonicalString(b);
    StringAccepted(b);
    if after == [] then None
    else if after[0] == COMMA then
      var (tags, rest) :- TagList(after[1..]);
      Some(([tag] + tags, rest))
    else if after[0] == CLOSE_BRACKET then Some(([tag], after[1..]))
    else None
  }

  function CanonicalTags(b: Bytes): Option<(seq<Bytes>, Bytes)> {
    if [CLOSE_BRACKET] <= b then Some(([], b[1..])) else TagList(b)
  }

  function Prepend(tags: seq<Bytes>, r: Option<(seq<Bytes>, Bytes)>): Option<(seq<Bytes>, Bytes)> {
    if r.None? then None else Some((tags + r.value.0, r.value.1))
  }

  /** The tag loop as written: it accumulates tags until the closing bracket. */
  method ParseTags(b: Bytes) returns (r: Option<(seq<Bytes>, Bytes)>)
    ensures r == CanonicalTags(b)
  {
    if [CLOSE_BRACKET] <= b {
      return Some(([], b[1..]));
    }
    var tags, rest := [], b;
    assert Prepend([], TagList(b)) == TagList(b) by {
      if TagList(b).Some? {
        assert [] + TagList(b).value.0 == TagList(b).value.0;
      }
    }
    while true
      invariant TagList(b) == Prepend(tags, TagList(rest))
      decreases |rest|
    {
      var next := CanonicalString(rest);
      if next.None? {
        return None;
      }
      StringAccepted(rest);
      var (tag, after) := next.value;
      if after == [] {
        return None;
      }
      if after[0] == CLOSE_BRACKET {
        return Some((tags + [tag], after[1..]));
      }
      if after[0] != COMMA {
        return None;
      }
      if TagList(after[1..]).Some? {
        assert tags + ([tag] + TagList(after[1..]).value.0) == (tags + [tag]) + TagList(after[1..]).value.0;
      }
      tags, rest := tags + [tag], after[1..];
    }
  }

  function PrintTags(tags: seq<Bytes>): Bytes {
    if tags == [] then [CLOSE_BRACKET]
    else if |tags| == 1 then PrintString(tags[0]) + [CLOSE_BRACKET]
    else PrintString(tags[0]) + [COMMA] + PrintTags(tags[1..])
  }

  predicate PlainText(s: Bytes) { Plain(s) && ValidUtf8(s) }

  lemma LastTag(tag: Bytes, rest: Bytes)
    requires PlainText(tag)
    ensures TagList(PrintString(tag) + ([CLOSE_BRACKET] + rest)) == Some(([tag], rest))
  {
    StringRoundTrip(tag, [CLOSE_BRACKET] + rest);
    assert ([CLOSE_BRACKET] + rest)[1..] == rest;
  }

  lemma MoreTags(tag: Bytes, b: Bytes)
    requires PlainText(tag)
    ensures TagList(PrintString(tag) + ([COMMA] + b)) == Prepend([tag], TagList(b))
  {
    StringRoundTrip(tag, [COMMA] + b);
    assert ([COMMA] + b)[1..] == b;
  }

  lemma PrintTagsShape(tags: seq<Bytes>, rest: Bytes)
    requires tags != []
    ensures PrintTags(tags) + rest
         == PrintString(tags[0]) + if |tags| == 1 then [CLOSE_BRACKET] + rest else [COMMA] + (PrintTags(tags[1..]) + rest)
  {
  }

  lemma {:induction false} TagListRoundTrip(tags: seq<Bytes>, rest: Bytes)
    requires tags != [] && forall i | 0 <= i < |tags| :: PlainText(tags[i])
    ensures TagList(PrintTags(tags) + rest) == Some((tags, rest))
    decreases |tags|
  {
    var tag, more := tags[0], tags[1..];
    assert PlainText(tag) && tags == [tag] + more;
    PrintTagsShape(tags, rest);
    if more == [] {
      assert tags == [tag];
      LastTag(tag, rest);
    } else {
      assert forall i | 0 <= i < |more| :: PlainText(more[i]) by {
        assert forall i | 0 <= i < |more| :: more[i] == tags[i + 1];
      }
      TagListRoundTrip(more, rest);
      MoreTags(tag, PrintTags(more) + rest);
    }
  }

  lemma TagsRoundTrip(tags: seq<Bytes>, rest: Bytes)
    requires forall i | 0 <= i < |tags| :: PlainText(tags[i])
    ensures CanonicalTags(PrintTags(tags) + rest) == Some((tags, rest))
  {
    if tags == [] {
      assert (PrintTags(tags) + rest)[1..] == rest;
    } else {
      TagListRoundTrip(tags, rest);
      assert (PrintTags(tags) + rest)[0] == QUOTE;
    }
  }

  // ---- The envelope ------------------------------------------------------------------------

  /** A named tick: the field's literal prefix, then a canonical integer. */
  function TickField(b: Bytes, prefix: Bytes): Option<(int, Bytes)> {
    var rest :- StripPrefix(b, prefix);
    CanonicalI64(rest)
  }

  function BoolField(b: Bytes): Option<(bool, Bytes)> {
    var rest :- StripPrefix(b, FAIL_SAFE);
    if FALSE <= rest then Some((false, rest[|FALSE|..]))
    else if TRUE <= rest then Some((true, rest[|TRUE|..]))
    else None
  }

  function EtagField(b: Bytes): Option<(Option<Bytes>, Bytes)> {
    var rest :- StripPrefix(b, ETAG);
    if NULL <= rest then Some((None, rest[|NULL|..]))
    else
      var (text, after) :- CanonicalString(rest);
      Some((Some(text), after))
  }

  function LastModifiedField(b: Bytes): Option<(Option<int>, Bytes)> {
    var rest :- StripPrefix(b, LAST_MODIFIED);
    if NULL <= rest then Some((None, rest[|NULL|..]))
    else
      var (ticks, after) :- CanonicalI64(rest);
      Some((Some(ticks), after))
  }

  function TagsField(b: Bytes): Option<(seq<Bytes>, Bytes)> {
    var rest :- StripPrefix(b, TAGS);
    CanonicalTags(rest)
  }

  function ValueField<V>(decode: ValueDecoder<V>, b: Bytes): Option<(V, Bytes)> {
    var rest :- StripPrefix(b, VALUE);
    var (v, n) :- decode(rest);
    if n <= |rest| then Some((v, rest[n..])) else None
  }

  /** The ticks, in order. */
  function Ticks(b: Bytes): Option<(int, int, int, Bytes)> {
    var (created, b2) :- TickField(b, CREATED);
    var (logical, b3) :- TickField(b2, LOGICAL);
    var (physical, b4) :- TickField(b3, PHYSICAL);
    Some((created, logical, physical, b4))
  }

  /** The members after the ticks, through the closing brace that ends the input. */
  function Trailer(b: Bytes): Option<(bool, Option<Bytes>, Option<int>, seq<Bytes>)> {
    var (failSafe, b5) :- BoolField(b);
    var (etag, b6) :- EtagField(b5);
    var (lastModified, b7) :- LastModifiedField(b6);
    var (tags, b8) :- TagsField(b7);
    if b8 == [CLOSE_BRACE] then Some((failSafe, etag, lastModified, tags)) else None
  }

  /** The fast path: fixed field order, no whitespace, escape-free strings. */
  function CanonicalEntry<V>(decode: ValueDecoder<V>, bytes: Bytes): Option<Envelope<V>> {
    var (value, b1) :- ValueField(decode, bytes);
    var (created, logical, physical, b4) :- Ticks(b1);
    var (failSafe, etag, lastModified, tags) :- Trailer(b4);
    Some(Envelope(value, created, logical, physical, failSafe, etag, lastModified, tags))
  }

  /** The parser as written, with the tag loop and the packed integer parser. */
  method ParseEntry<V>(decode: ValueDecoder<V>, bytes: Bytes) returns (r: Option<Envelope<V>>)
    ensures r == CanonicalEntry(decode, bytes)
  {
    var value :- ValueField(decode, bytes);
    var created :- ParseTick(value.1, CREATED);
    var logical :- ParseTick(created.1, LOGICAL);
    var physical :- ParseTick(logical.1, PHYSICAL);
    var failSafe :- BoolField(physical.1);
    var etag :- EtagField(failSafe.1);
    var b7 :- StripPrefix(etag.1, LAST_MODIFIED);
    var lastModified: (Option<int>, Bytes) := (None, []);
    if NULL <= b7 {
      lastModified := (None, b7[|NULL|..]);
    } else {
      var ticks :- ParseI64(b7);
      lastModified := (Some(ticks.0), ticks.1);
    }
    var b8 :- StripPrefix(lastModified.1, TAGS);
    var tags :- ParseTags(b8);
    if tags.1 != [CLOSE_BRACE] {
      return None;
    }
    r := Some(Envelope(value.0, created.0, logical.0, physical.0, failSafe.0, etag.0, lastModified.0, tags.0));
  }

  method ParseTick(b: Bytes, prefix: Bytes) returns (r: Option<(int, Bytes)>)
    ensures r == TickField(b, prefix)
  {
    var rest :- StripPrefix(b, prefix);
    r := ParseI64(rest);
  }

  // ---- Printing and the round trip -----------------------------------------------------------

  function PrintBool(v: bool): Bytes { if v then TRUE else FALSE }

  function PrintEtag(e: Option<Bytes>): Bytes { if e.None? then NULL else PrintString(e.value) }

  function PrintTicks(t: Option<int>): Bytes { if t.None? then NULL else PrintI64(t.value) }

  /** The fixed layout of an envelope whose value is already encoded. */
  function PrintEntry<V>(encoded: Bytes, e: Envelope<V>): Bytes {
    VALUE + (encoded + PrintMetadata(e))
  }

  function PrintMetadata<V>(e: Envelope<V>): Bytes {
    CREATED + (PrintI64(e.created) + PrintAfterCreated(e))
  }

  function PrintAfterCreated<V>(e: Envelope<V>): Bytes {
    LOGICAL + (PrintI64(e.logical) + (PHYSICAL + (PrintI64(e.physical) + PrintRest(e))))
  }

  function PrintRest<V>(e: Envelope<V>): Bytes {
    FAIL_SAFE + (PrintBool(e.failSafe)
    + (ETAG + (PrintEtag(e.etag)
    + (LAST_MODIFIED + (PrintTicks(e.lastModified)
    + (TAGS + (PrintTags(e.tags) + [CLOSE_BRACE])))))))
  }

  predicate InRange(n: int) { -(MAX_I64 as int) <= n <= MAX_I64 }

  /** Ticks other than i64::MIN and strings that print without escapes. */
  predicate Printable<V>(e: Envelope<V>) {
    && InRange(e.created) && InRange(e.logical) && InRange(e.physical)
    && (e.lastModified.Some? ==> InRange(e.lastModified.value))
    && (e.etag.Some? ==> PlainText(e.etag.value))
    && forall i | 0 <= i < |e.tags| :: PlainText(e.tags[i])
  }

  lemma Strips(p: Bytes, r: Bytes)
    ensures StripPrefix(p + r, p) == Some(r)
  {
    assert (p + r)[|p|..] == r;
  }

  lemma TickFieldRoundTrip(prefix: Bytes, n: int, rest: Bytes)
    requires InRange(n) && rest != [] && rest[0] == COMMA
    ensures TickField(prefix + (PrintI64(n) + rest), prefix) == Some((n, rest))
  {
    Strips(prefix, PrintI64(n) + rest);
    PrintParse(n, rest);
  }

  lemma BoolFieldRoundTrip(v: bool, rest: Bytes)
    ensures BoolField(FAIL_SAFE + (PrintBool(v) + rest)) == Some((v, rest))
  {
    Strips(FAIL_SAFE, PrintBool(v) + rest);
    Strips(PrintBool(v), rest);
    assert FALSE[0] == 102 && TRUE[0] == 116;
    assert v ==> (PrintBool(v) + rest)[0] == 116;
  }

  lemma EtagFieldRoundTrip(e: Option<Bytes>, rest: Bytes)
    requires e.Some? ==> PlainText(e.value)
    ensures EtagField(ETAG + (PrintEtag(e) + rest)) == Some((e, rest))
  {
    Strips(ETAG, PrintEtag(e) + rest);
    if e.None? {
      Strips(NULL, rest);
    } else {
      StringRoundTrip(e.value, rest);
      assert (PrintEtag(e) + rest)[0] == QUOTE && NULL[0] == 110;
    }
  }

  lemma LastModifiedFieldRoundTrip(t: Option<int>, rest: Bytes)
    requires t.Some? ==> InRange(t.value)
    requires rest != [] && rest[0] == COMMA
    ensures LastModifiedField(LAST_MODIFIED + (PrintTicks(t) + rest)) == Some((t, rest))
  {
    Strips(LAST_MODIFIED, PrintTicks(t) + rest);
    if t.None? {
      Strips(NULL, rest);
    } else {
      PrintParse(t.value, rest);
      var head := (PrintTicks(t) + rest)[0];
      assert head == PrintI64(t.value)[0] && (head == MINUS || IsDigit(head)) && NULL[0] == 110;
    }
  }

  lemma TagsFieldRoundTrip(tags: seq<Bytes>, rest: Bytes)
    requires forall i | 0 <= i < |tags| :: PlainText(tags[i])
    ensures TagsField(TAGS + (PrintTags(tags) + rest)) == Some((tags, rest))
  {
    Strips(TAGS, PrintTags(tags) + rest);
    TagsRoundTrip(tags, rest);
  }

  lemma ValueFieldRoundTrip<V>(decode: ValueDecoder<V>, encoded: Bytes, v: V, rest: Bytes)
    requires decode(encoded + rest) == Some((v, |encoded|))
    ensures ValueField(decode, VALUE + (encoded + rest)) == Some((v, rest))
  {
    Strips(VALUE, encoded + rest);
    Strips(encoded, rest);
  }

  lemma TrailerRoundTrip<V>(e: Envelope<V>)
    requires Printable(e)
    ensures At(PrintRest(e), COMMA)
    ensures Trailer(PrintRest(e)) == Some((e.failSafe, e.etag, e.lastModified, e.tags))
  {
    var s8 := [CLOSE_BRACE];
    var s7 := TAGS + (PrintTags(e.tags) + s8);
    var s6 := LAST_MODIFIED + (PrintTicks(e.lastModified) + s7);
    var s5 := ETAG + (PrintEtag(e.etag) + s6);
    assert s7[0] == COMMA;
    BoolFieldRoundTrip(e.failSafe, s5);
    EtagFieldRoundTrip(e.etag, s6);
    LastModifiedFieldRoundTrip(e.lastModified, s7);
    TagsFieldRoundTrip(e.tags, s8);
  }

  /** The ticks after any accepted spelling of the creation tick. */
  lemma TicksRoundTrip<V>(e: Envelope<V>, created: Bytes)
    requires Printable(e)
    requires CanonicalI64(created + PrintAfterCreated(e)) == Some((e.created, PrintAfterCreated(e)))
    ensures Ticks(CREATED + (created + PrintAfterCreated(e))) == Some((e.created, e.logical, e.physical, PrintRest(e)))
  {
    var s3 := PHYSICAL + (PrintI64(e.physical) + PrintRest(e));
    TrailerRoundTrip(e);
    assert s3[0] == COMMA;
    Strips(CREATED, created + PrintAfterCreated(e));
    TickFieldRoundTrip(LOGICAL, e.logical, s3);
    TickFieldRoundTrip(PHYSICAL, e.physical, PrintRest(e));
  }

  /** Printing any envelope in the fixed layout and parsing it returns that envelope, given
      a value decoder that recovers the value when the metadata follows it. */
  lemma EntryRoundTrip<V>(decode: ValueDecoder<V>, encoded: Bytes, e: Envelope<V>)
    requires Printable(e)
    requires decode(encoded + PrintMetadata(e)) == Some((e.value, |encoded|))
    ensures CanonicalEntry(decode, PrintEntry(encoded, e)) == Some(e)
  {
    ValueFieldRoundTrip(decode, encoded, e.value, PrintMetadata(e));
    assert At(PrintAfterCreated(e), COMMA);
    PrintParse(e.created, PrintAfterCreated(e));
    TicksRoundTrip(e, PrintI64(e.created));
    TrailerRoundTrip(e);
  }

  // ---- The literal text -------------------------------------------------------------------------

  /** A member's prefix in characters. */
  function MemberText(separator: char, name: string): string { [separator] + "\"" + name + "\":" }

  lemma PrefixText(separator: char, name: string)
    requires separator < 128 as char
    ensures Prefix(separator as int, Ascii(name)) == Ascii(MemberText(separator, name))
  {
    var text := MemberText(separator, name);
    assert |text| == |name| + 4 && text[0] == separator && text[1] == '\"';
    assert text[|name| + 2] == '\"' && text[|name| + 3] == ':';
    forall i | 0 <= i < |name| ensures text[i + 2] == name[i] {
    }
  }

  /** The fixed text of the layout, as the serializer writes it. */
  lemma LayoutText()
    ensures VALUE == Ascii(MemberText('{', "value"))
    ensures CREATED == Ascii(MemberText(',', "created_ticks"))
    ensures LOGICAL == Ascii(MemberText(',', "logical_expiration_ticks"))
    ensures PHYSICAL == Ascii(MemberText(',', "physical_expiration_ticks"))
    ensures FAIL_SAFE == Ascii(MemberText(',', "is_from_fail_safe"))
    ensures ETAG == Ascii(MemberText(',', "etag"))
    ensures LAST_MODIFIED == Ascii(MemberText(',', "last_modified_ticks"))
    ensures TAGS == Ascii(MemberText(',', "tags")) + Ascii("[")
  {
    PrefixText('{', "value");
    PrefixText(',', "created_ticks");
    PrefixText(',', "logical_expiration_ticks");
    PrefixText(',', "physical_expiration_ticks");
    PrefixText(',', "is_from_fail_safe");
    PrefixText(',', "etag");
    PrefixText(',', "last_modified_ticks");
    PrefixText(',', "tags");
    assert Ascii("[") == [OPEN_BRACKET];
  }
}
