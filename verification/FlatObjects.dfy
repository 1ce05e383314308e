/**
  Searching a field in what a printer writes: a flat object, cut off anywhere. The search takes a
  quoted key for the key of a field wherever a colon follows, so also at the end of another key.
 */
module FlatObjects {
  import opened Wrappers
  import opened Utf8
  import opened PartialJson
  import opened FieldSearch

  const CLOSE_BRACE: byte := 0x7D

  /** A string, or a number or word that stands bare. */
  datatype FieldValue = Chars(cs: seq<scalar>) | Bare(token: seq<byte>)

  datatype Field = Field(name: seq<scalar>, value: FieldValue)

  /** What the keys that are looked for are made of. */
  predicate NameByte(b: byte) {
    0x30 <= b <= 0x39 || 0x41 <= b <= 0x5A || b == 0x5F || 0x61 <= b <= 0x7A
  }

  predicate IsKey(key: seq<byte>) {
    key != [] && forall i :: 0 <= i < |key| ==> NameByte(key[i])
  }

  predicate LegalValue(v: FieldValue) {
    v.Bare? ==> v.token != [] && forall i :: 0 <= i < |v.token| ==> v.token[i] != QUOTE && !Whitespace(v.token[i])
  }

  ghost predicate LegalFields(fields: seq<Field>) {
    forall i :: 0 <= i < |fields| ==> LegalValue(fields[i].value)
  }

  // ----- Printing -----

  function Spelt(cs: seq<scalar>): seq<byte> {
    WrittenAll(PrintAll(cs))
  }

  function ValueBytes(v: FieldValue): seq<byte> {
    match v
    case Chars(cs) => [QUOTE] + Spelt(cs) + [QUOTE]
    case Bare(token) => token
  }

  /** A field after the byte that leads it in. */
  function FieldBytes(lead: byte, f: Field): seq<byte> {
    [lead, QUOTE] + Spelt(f.name) + [QUOTE, COLON] + ValueBytes(f.value)
  }

  function Body(lead: byte, fields: seq<Field>): seq<byte>
    decreases |fields|
  {
    if fields == [] then [CLOSE_BRACE] else FieldBytes(lead, fields[0]) + Body(COMMA, fields[1..])
  }

  function Printed(fields: seq<Field>): seq<byte> {
    if fields == [] then [OPEN_BRACE, CLOSE_BRACE] else Body(OPEN_BRACE, fields)
  }

  /** Where the value of field `j` begins. */
  function ValuePos(fields: seq<Field>, j: nat): (v: nat)
    requires j < |fields|
    ensures 4 <= v
  {
    if j == 0 then |Spelt(fields[0].name)| + 4
    else |FieldBytes(COMMA, fields[0])| + ValuePos(fields[1..], j - 1)
  }

  // ----- Names that the search stops at -----

  ghost predicate EndsIn(s: seq<byte>, tail: seq<byte>) {
    exists front :: s == front + tail
  }

  /** The name is the key. */
  ghost predicate Named(name: seq<scalar>, key: seq<byte>) {
    EncodeAll(name) == key
  }

  /** As it is written, the name ends in an escaped quote and the key. */
  ghost predicate EndsQuoted(name: seq<scalar>, key: seq<byte>) {
    EndsIn(Spelt(name), [BACKSLASH, QUOTE] + key)
  }

  /** From its opening quote on, the name ends in a quote and the key. */
  ghost predicate Stops(name: seq<scalar>, key: seq<byte>) {
    EndsIn([QUOTE] + Spelt(name), [QUOTE] + key)
  }

  ghost predicate QuotesEscaped(s: seq<byte>) {
    forall p :: 0 <= p < |s| && s[p] == QUOTE ==> p > 0 && s[p - 1] == BACKSLASH
  }

  lemma PieceQuotes(c: scalar)
    ensures QuotesEscaped(Written(Print(c)))
  {
    hide Encode;
    if Print(c).Raw? {
      EncodedQuote(c);
    }
  }

  lemma EncodedQuote(c: scalar)
    requires c != QUOTE
    ensures QUOTE !in Encode(c)
  {
    assert IsScalar(c);
  }

  lemma {:induction false} SpeltQuotes(cs: seq<scalar>)
    ensures QuotesEscaped(Spelt(cs))
  {
    hide Print, Written;
    if cs != [] {
      var first, rest := Written(Print(cs[0])), Spelt(cs[1..]);
      PieceQuotes(cs[0]);
      SpeltQuotes(cs[1..]);
      SpeltStep(cs);
      forall p | 0 <= p < |first + rest| && (first + rest)[p] == QUOTE
        ensures p > 0 && (first + rest)[p - 1] == BACKSLASH
      {
        assert p >= |first| ==> rest[p - |first|] == QUOTE;
      }
    }
  }

  lemma SpeltStep(cs: seq<scalar>)
    requires cs != []
    ensures Spelt(cs) == Written(Print(cs[0])) + Spelt(cs[1..])
  {
    hide Print, Written;
    assert PrintAll(cs)[1..] == PrintAll(cs[1..]);
  }

  lemma {:induction false} NameSpelt(cs: seq<scalar>, key: seq<byte>)
    requires EncodeAll(cs) == key && forall i :: 0 <= i < |key| ==> NameByte(key[i])
    ensures Spelt(cs) == key
  {
    if cs != [] {
      var head := Encode(cs[0]);
      assert IsScalar(cs[0]);
      assert key[0] == head[0];
      assert head == [cs[0] as byte];
      assert EncodeAll(cs[1..]) == key[1..];
      NameSpelt(cs[1..], key[1..]);
      SpeltStep(cs);
      assert Print(cs[0]) == Raw(cs[0]);
    }
  }

  lemma {:induction false} RawDecoded(key: seq<byte>)
    requires forall i :: 0 <= i < |key| ==> NameByte(key[i])
    ensures Decode(key + [QUOTE]) == key
  {
    var src := key + [QUOTE];
    if key == [] {
      assert src == [QUOTE];
    } else {
      assert src[..1] == [key[0]] && src[1..] == key[1..] + [QUOTE];
      OneCharacterValid(key[0]);
      RawDecoded(key[1..]);
    }
  }

  lemma OneCharacterValid(b: byte)
    requires b < 0x80
    ensures Valid([b])
  {
    assert [b][..1] == [b] && [b][1..] == [];
  }

  /** A name spelt as the key is the key. */
  lemma SpeltIsName(cs: seq<scalar>, key: seq<byte>)
    requires IsKey(key)
    ensures Spelt(cs) == key <==> Named(cs, key)
  {
    hide Decode;
    if Named(cs, key) {
      NameSpelt(cs, key);
    }
    if Spelt(cs) == key {
      DecodeInvertsPrint(cs, []);
      assert [QUOTE] + [] == [QUOTE];
      RawDecoded(key);
    }
  }

  /** The search stops at the key itself and at names that end in an escaped quote and the key. */
  lemma StopsExactly(name: seq<scalar>, key: seq<byte>)
    requires IsKey(key)
    ensures Stops(name, key) <==> Named(name, key) || EndsQuoted(name, key)
  {
    hide Spelt, EndsIn;
    SpeltQuotes(name);
    SpeltIsName(name, key);
    EndsInQuote(Spelt(name), key);
  }

  lemma EndsInQuote(w: seq<byte>, key: seq<byte>)
    requires QuotesEscaped(w)
    ensures EndsIn([QUOTE] + w, [QUOTE] + key) <==> w == key || EndsIn(w, [BACKSLASH, QUOTE] + key)
  {
    hide QuotesEscaped;
    if EndsIn([QUOTE] + w, [QUOTE] + key) {
      var front :| [QUOTE] + w == front + ([QUOTE] + key);
      assert w == ([QUOTE] + w)[1..];
      if front == [] {
        assert front + ([QUOTE] + key) == [QUOTE] + key;
      } else {
        assert w == front[1..] + ([QUOTE] + key);
        EscapeBefore(w, front[1..], key);
      }
    }
    if EndsIn(w, [BACKSLASH, QUOTE] + key) {
      var front :| w == front + ([BACKSLASH, QUOTE] + key);
      assert [QUOTE] + w == ([QUOTE] + front + [BACKSLASH]) + ([QUOTE] + key);
    }
    if w == key {
      assert [QUOTE] + w == [] + ([QUOTE] + key);
    }
  }

  lemma EscapeBefore(w: seq<byte>, front: seq<byte>, key: seq<byte>)
    requires QuotesEscaped(w) && w == front + ([QUOTE] + key)
    ensures EndsIn(w, [BACKSLASH, QUOTE] + key)
  {
    var n := |front|;
    assert w[n] == QUOTE;
    assert n > 0 && front[n - 1] == w[n - 1] == BACKSLASH;
    assert w == front[..n - 1] + ([BACKSLASH, QUOTE] + key);
  }

  // ----- Keys in a printed field -----

  /** The bytes of a field and of what follows it. */
  lemma {:induction false} BodyBytes(lead: byte, fields: seq<Field>)
    requires fields != []
    ensures var t, w, e := Body(lead, fields), Spelt(fields[0].name), |Spelt(fields[0].name)| + 2;
            var v, end := ValueBytes(fields[0].value), |FieldBytes(lead, fields[0])|;
            && end == e + 2 + |v| < |t|
            && t[0] == lead && t[1] == QUOTE && t[2..e] == w && t[e] == QUOTE && t[e + 1] == COLON
            && t[e + 2..end] == v && t[end] in {COMMA, CLOSE_BRACE}
            && t[end..] == Body(COMMA, fields[1..])
  {
    hide Spelt, ValueBytes;
  }

  predicate IsLead(b: byte) {
    b == OPEN_BRACE || b == COMMA
  }

  /** A quote in a printed field opens or closes its name, ends its value, or follows a backslash or a colon. */
  lemma QuotesOfField(lead: byte, fields: seq<Field>, q: nat)
    requires fields != [] && IsLead(lead) && LegalValue(fields[0].value) && q < |FieldBytes(lead, fields[0])|
    ensures var t, e := Body(lead, fields), |Spelt(fields[0].name)| + 2;
            t[q] == QUOTE ==>
              || q == 1 || q == e || q + 1 == |FieldBytes(lead, fields[0])|
              || (q > 0 && t[q - 1] in {BACKSLASH, COLON})
  {
    hide Spelt, Body, FieldBytes;
    BodyBytes(lead, fields);
    var t, e, v := Body(lead, fields), |Spelt(fields[0].name)| + 2, ValueBytes(fields[0].value);
    SpeltQuotes(fields[0].name);
    if 2 <= q < e {
      assert t[2..e][q - 2] == t[q] && (q > 2 ==> t[2..e][q - 3] == t[q - 1]);
    } else if e + 2 <= q {
      QuotesOfValue(fields[0].value, q - e - 2);
      assert t[q] == v[q - e - 2] && (q > e + 2 ==> t[q - 1] == v[q - e - 3]);
    }
  }

  lemma QuotesOfValue(v: FieldValue, p: nat)
    requires LegalValue(v) && p < |ValueBytes(v)|
    ensures ValueBytes(v)[p] == QUOTE ==> p == 0 || p + 1 == |ValueBytes(v)| || ValueBytes(v)[p - 1] == BACKSLASH
  {
    hide Spelt;
    if v.Chars? {
      SpeltQuotes(v.cs);
    }
  }

  /** The only key that a printed field can hold ends its name. */
  lemma {:induction false} KeyEndsName(lead: byte, fields: seq<Field>, key: seq<byte>, idx: nat)
    requires fields != [] && IsLead(lead) && IsKey(key) && LegalValue(fields[0].value)
    requires idx < |FieldBytes(lead, fields[0])| && IsKeyAt(Body(lead, fields), Quoted(key), idx)
    ensures Stops(fields[0].name, key) && idx + |key| == |Spelt(fields[0].name)| + 1
  {
    hide Spelt, Body, ValueBytes, FieldBytes;
    BodyBytes(lead, fields);
    var t, w, e := Body(lead, fields), Spelt(fields[0].name), |Spelt(fields[0].name)| + 2;
    var end, q := |FieldBytes(lead, fields[0])|, idx + |key| + 1;
    QuotedBytes(t, key, idx);
    forall k | idx < k < q ensures NameByte(t[k]) {
      assert t[idx + 1 + (k - idx - 1)] == key[k - idx - 1];
    }
    assert !NameByte(t[end]) && t[end] != QUOTE && SkipWhitespace(t, end) == end;
    assert q < end && NameByte(t[q - 1]);
    QuotesOfField(lead, fields, q);
    assert q == e && idx >= 1;
    KeyInName(t, w, e, key, idx);
  }

  lemma KeyInName(t: seq<byte>, w: seq<byte>, e: nat, key: seq<byte>, idx: nat)
    requires 1 <= idx && e == |w| + 2 < |t| && t[1] == QUOTE && t[2..e] == w
    requires idx + 1 + |key| == e && MatchAt(t, Quoted(key), idx)
    ensures EndsIn([QUOTE] + w, [QUOTE] + key)
  {
    NameSlice(t, w, e);
    assert t[idx..e] == t[idx..e + 1][..|key| + 1] == Quoted(key)[..|key| + 1] == [QUOTE] + key;
    assert t[1..e] == t[1..idx] + t[idx..e];
  }

  lemma NameSlice(t: seq<byte>, w: seq<byte>, e: nat)
    requires e == |w| + 2 <= |t| && t[1] == QUOTE && t[2..e] == w
    ensures t[1..e] == [QUOTE] + w
  {
    assert t[1..e] == [t[1]] + t[2..e];
  }

  lemma QuotedBytes(bytes: seq<byte>, key: seq<byte>, idx: nat)
    requires MatchAt(bytes, Quoted(key), idx)
    ensures idx + |key| + 2 <= |bytes| && bytes[idx] == QUOTE && bytes[idx + |key| + 1] == QUOTE
    ensures forall k :: 0 <= k < |key| ==> bytes[idx + 1 + k] == key[k]
  {
    var found := bytes[idx..idx + |Quoted(key)|];
    assert found[0] == bytes[idx] && found[|key| + 1] == bytes[idx + |key| + 1];
    forall k | 0 <= k < |key| ensures bytes[idx + 1 + k] == key[k] {
      assert found[k + 1] == bytes[idx + 1 + k];
    }
  }

  /** A name at which the search stops does hold one. */
  lemma {:induction false} NameHoldsKey(lead: byte, fields: seq<Field>, key: seq<byte>)
    requires fields != [] && Stops(fields[0].name, key)
    ensures var n := |Spelt(fields[0].name)|;
            |key| <= n && IsKeyAt(Body(lead, fields), Quoted(key), n + 1 - |key|)
  {
    hide Spelt, Body, FieldBytes, ValueBytes, MatchAt, EndsIn;
    BodyBytes(lead, fields);
    var t, w := Body(lead, fields), Spelt(fields[0].name);
    NameMatches(t, w, |w| + 2, key);
    assert SkipWhitespace(t, |w| + 3) == |w| + 3;
  }

  lemma NameMatches(t: seq<byte>, w: seq<byte>, e: nat, key: seq<byte>)
    requires e == |w| + 2 < |t| && t[1] == QUOTE && t[2..e] == w && t[e] == QUOTE
    requires EndsIn([QUOTE] + w, [QUOTE] + key)
    ensures |key| <= |w| && MatchAt(t, Quoted(key), e - 1 - |key|)
  {
    NameSlice(t, w, e);
    var front :| [QUOTE] + w == front + ([QUOTE] + key);
    var idx, n := 1 + |front|, |key| + 1;
    assert |front| + n == |w| + 1;
    assert t[idx..e] == t[1..e][|front|..] == (front + ([QUOTE] + key))[|front|..] == [QUOTE] + key;
    assert t[idx..e + 1] == t[idx..e] + [t[e]];
  }

  lemma FirstOfSlice(t: seq<byte>, a: nat, b: nat)
    requires a < b <= |t|
    ensures t[a..] == t[a..b] + t[b..] && t[a..b][0] == t[a]
  {
  }

  lemma Later(t: seq<byte>, a: nat, i: nat)
    requires a + i < |t|
    ensures t[a..][i..] == t[a + i..] && t[a..][i] == t[a + i] && (i > 0 ==> t[a..][i - 1] == t[a + i - 1])
  {
  }

  lemma {:induction false} SkipShifted(pre: seq<byte>, bytes: seq<byte>, i: nat)
    requires i <= |bytes|
    ensures SkipWhitespace(pre + bytes, |pre| + i) == |pre| + SkipWhitespace(bytes, i)
    decreases |bytes| - i
  {
    if i < |bytes| && Whitespace(bytes[i]) {
      SkipShifted(pre, bytes, i + 1);
    }
  }

  /** Keys of what follows are keys of the whole, further on. */
  lemma KeyShifted(pre: seq<byte>, bytes: seq<byte>, needle: seq<byte>, idx: nat)
    ensures IsKeyAt(pre + bytes, needle, |pre| + idx) <==> IsKeyAt(bytes, needle, idx)
  {
    hide SkipWhitespace;
    var all := pre + bytes;
    if idx + |needle| <= |bytes| {
      assert all[|pre| + idx..|pre| + idx + |needle|] == bytes[idx..idx + |needle|];
      SkipShifted(pre, bytes, idx + |needle|);
    }
  }

  /** Is `j` the first field at whose name the search stops? */
  ghost predicate StopsFirst(fields: seq<Field>, key: seq<byte>, j: nat) {
    j < |fields| && Stops(fields[j].name, key) && forall i :: 0 <= i < j ==> !Stops(fields[i].name, key)
  }

  lemma FieldSize(lead: byte, other: byte, f: Field)
    ensures |FieldBytes(lead, f)| == |FieldBytes(other, f)|
  {
  }

  lemma BodyParts(lead: byte, fields: seq<Field>)
    requires fields != []
    ensures Body(lead, fields) == FieldBytes(lead, fields[0]) + Body(COMMA, fields[1..])
  {
  }

  /** The first key of a printed object ends the first name at which the search stops. */
  lemma {:induction false} FirstKeyOfBody(lead: byte, fields: seq<Field>, key: seq<byte>, j: nat) returns (idx: nat)
    requires IsLead(lead) && IsKey(key) && LegalFields(fields) && StopsFirst(fields, key, j)
    ensures FirstKeyAt(Body(lead, fields), Quoted(key), 0, idx) && idx + |key| + 3 == ValuePos(fields, j)
    decreases j
  {
    hide Spelt, Body, FieldBytes, IsKeyAt, Stops, Quoted, LegalValue, IsKey;
    if j == 0 {
      NameHoldsKey(lead, fields, key);
      idx := |Spelt(fields[0].name)| + 1 - |key|;
      forall k: nat | k < idx ensures !IsKeyAt(Body(lead, fields), Quoted(key), k) {
        NoOtherKey(lead, fields, key, k);
      }
    } else {
      assert forall i :: 0 <= i < |fields| - 1 ==> fields[1..][i] == fields[i + 1];
      var inner := FirstKeyOfBody(COMMA, fields[1..], key, j - 1);
      idx := |FieldBytes(lead, fields[0])| + inner;
      FieldSize(lead, COMMA, fields[0]);
      BodyParts(lead, fields);
      KeyShifted(FieldBytes(lead, fields[0]), Body(COMMA, fields[1..]), Quoted(key), inner);
      forall k: nat | k < idx ensures !IsKeyAt(Body(lead, fields), Quoted(key), k) {
        NoKeyBefore(lead, fields, key, inner, k);
      }
    }
  }

  lemma {:induction false} NoOtherKey(lead: byte, fields: seq<Field>, key: seq<byte>, k: nat)
    requires fields != [] && IsLead(lead) && IsKey(key) && LegalFields(fields)
    requires k + |key| < |Spelt(fields[0].name)| + 1
    ensures !IsKeyAt(Body(lead, fields), Quoted(key), k)
  {
    hide Spelt, Body, IsKeyAt, Stops, Quoted, IsKey, ValueBytes;
    if IsKeyAt(Body(lead, fields), Quoted(key), k) {
      KeyEndsName(lead, fields, key, k);
      assert false;
    }
  }

  /** The value of field `j` is where `ValuePos` says, after a colon. */
  lemma {:induction false} ValueFollows(lead: byte, fields: seq<Field>, j: nat)
    requires j < |fields| && LegalValue(fields[j].value)
    ensures var t, v := Body(lead, fields), ValuePos(fields, j);
            && v < |t| && !Whitespace(t[v]) && t[v - 1] == COLON
            && t[v..] == ValueBytes(fields[j].value) + Body(COMMA, fields[j + 1..])
    decreases j
  {
    hide Spelt, Body, FieldBytes, ValueBytes, Whitespace;
    if j == 0 {
      FirstValueFollows(lead, fields);
    } else {
      var end, u := |FieldBytes(lead, fields[0])|, ValuePos(fields[1..], j - 1);
      FieldSize(lead, COMMA, fields[0]);
      ValueFollows(COMMA, fields[1..], j - 1);
      BodyAfter(lead, fields);
      Later(Body(lead, fields), end, u);
      assert fields[1..][j..] == fields[j + 1..];
    }
  }

  lemma BodyAfter(lead: byte, fields: seq<Field>)
    requires fields != []
    ensures var t, end := Body(lead, fields), |FieldBytes(lead, fields[0])|;
            end < |t| && t[end..] == Body(COMMA, fields[1..])
  {
    hide Spelt, Body, FieldBytes, ValueBytes;
    BodyBytes(lead, fields);
  }

  lemma FirstValueFollows(lead: byte, fields: seq<Field>)
    requires fields != [] && LegalValue(fields[0].value)
    ensures var t, v := Body(lead, fields), |Spelt(fields[0].name)| + 4;
            && v < |t| && !Whitespace(t[v]) && t[v - 1] == COLON
            && t[v..] == ValueBytes(fields[0].value) + Body(COMMA, fields[1..])
  {
    hide Spelt, Body, FieldBytes;
    BodyBytes(lead, fields);
    FirstOfSlice(Body(lead, fields), |Spelt(fields[0].name)| + 4, |FieldBytes(lead, fields[0])|);
  }

  lemma {:induction false} NoKeyBefore(lead: byte, fields: seq<Field>, key: seq<byte>, inner: nat, k: nat)
    requires fields != [] && IsLead(lead) && IsKey(key) && LegalFields(fields) && !Stops(fields[0].name, key)
    requires NoKeyIn(Body(COMMA, fields[1..]), Quoted(key), 0, inner)
    requires k < |FieldBytes(lead, fields[0])| + inner
    ensures !IsKeyAt(Body(lead, fields), Quoted(key), k)
  {
    hide Spelt, Body, FieldBytes, IsKeyAt, ValueAfter, Stops, Quoted;
    BodyParts(lead, fields);
    var end := |FieldBytes(lead, fields[0])|;
    if k < end {
      if IsKeyAt(Body(lead, fields), Quoted(key), k) {
        KeyEndsName(lead, fields, key, k);
        assert false;
      }
    } else {
      KeyShifted(FieldBytes(lead, fields[0]), Body(COMMA, fields[1..]), Quoted(key), k - end);
    }
  }

  // ----- The object cut off -----

  /** A key of a part is a key of the whole. */
  lemma KeyOfPart(t: seq<byte>, cut: nat, needle: seq<byte>, idx: nat)
    requires cut <= |t| && IsKeyAt(t[..cut], needle, idx)
    ensures IsKeyAt(t, needle, idx)
  {
    hide SkipWhitespace;
    assert t == t[..cut] + t[cut..];
    assert t[..cut][idx..idx + |needle|] == t[idx..idx + |needle|];
    SkipWhitespaceStable(t[..cut], t[cut..], idx + |needle|);
  }

  /** Once the first key has its colon, the search finds its value. */
  lemma {:induction false} CutSearch(t: seq<byte>, cut: nat, needle: seq<byte>, idx: nat)
    requires needle != [] && FirstKeyAt(t, needle, 0, idx) && idx + |needle| + 1 <= cut <= |t|
    requires var v := idx + |needle| + 1; t[v - 1] == COLON && (v < |t| ==> !Whitespace(t[v]))
    ensures ValueStart(t[..cut], needle, 0) == Some(idx + |needle| + 1)
  {
    hide ValueStart;
    var part, v := t[..cut], idx + |needle| + 1;
    assert part[idx..idx + |needle|] == t[idx..idx + |needle|];
    assert SkipWhitespace(part, v - 1) == v - 1 && SkipWhitespace(part, v) == v;
    forall k: nat | k < idx ensures !IsKeyAt(part, needle, k) {
      if IsKeyAt(part, needle, k) {
        KeyOfPart(t, cut, needle, k);
        assert false;
      }
    }
    assert FirstKeyAt(part, needle, 0, idx);
    ValueStartIsFirst(part, needle, 0);
  }

  lemma {:induction false} SearchStopsFirst(fields: seq<Field>, key: seq<byte>, j: nat, cut: nat)
    requires IsKey(key) && LegalFields(fields) && StopsFirst(fields, key, j)
    requires ValuePos(fields, j) <= cut <= |Printed(fields)|
    ensures ValueStart(Printed(fields)[..cut], Quoted(key), 0) == Some(ValuePos(fields, j))
    ensures ValuePos(fields, j) < |Printed(fields)|
    ensures Printed(fields)[ValuePos(fields, j)..] == ValueBytes(fields[j].value) + Body(COMMA, fields[j + 1..])
  {
    hide Body, Stops, IsKeyAt, ValueStart, ValueBytes, Whitespace, ValuePos;
    ValueFollows(OPEN_BRACE, fields, j);
    var idx := FirstKeyOfBody(OPEN_BRACE, fields, key, j);
    CutSearch(Body(OPEN_BRACE, fields), cut, Quoted(key), idx);
  }

  lemma {:induction false} ValuePosGrows(fields: seq<Field>, i: nat, j: nat)
    requires i < j < |fields|
    ensures ValuePos(fields, i) < ValuePos(fields, j)
  {
    hide Spelt, ValueBytes;
    if i > 0 {
      ValuePosGrows(fields[1..], i - 1, j - 1);
    }
  }

  /** The first field of that name. */
  ghost predicate FirstNamed(fields: seq<Field>, key: seq<byte>, j: nat) {
    j < |fields| && Named(fields[j].name, key) && forall i :: 0 <= i < j ==> !Named(fields[i].name, key)
  }

  lemma {:induction false} FirstStop(fields: seq<Field>, key: seq<byte>, j: nat, from: nat) returns (i: nat)
    requires j < |fields| && Stops(fields[j].name, key) && from <= j
    requires forall k :: 0 <= k < from ==> !Stops(fields[k].name, key)
    ensures i <= j && StopsFirst(fields, key, i)
    decreases j - from
  {
    hide Stops;
    if Stops(fields[from].name, key) {
      i := from;
    } else {
      i := FirstStop(fields, key, j, from + 1);
    }
  }

  /**
    In a printed flat object, cut off anywhere after the value in question begins, the search
    finds the value of the first field that has the key if and only if no earlier name ends in an
    escaped quote and the key.
   */
  lemma {:induction false} FieldFoundExactly(fields: seq<Field>, key: seq<byte>, j: nat, cut: nat)
    requires IsKey(key) && LegalFields(fields) && FirstNamed(fields, key, j)
    requires ValuePos(fields, j) <= cut <= |Printed(fields)|
    ensures ValueStart(Printed(fields)[..cut], Quoted(key), 0) == Some(ValuePos(fields, j))
       <==> forall i :: 0 <= i < j ==> !EndsQuoted(fields[i].name, key)
  {
    hide Printed, Stops, Named, EndsQuoted, ValuePos, ValueStart, LegalFields, IsKey;
    forall i | 0 <= i <= j
      ensures Stops(fields[i].name, key) <==> Named(fields[i].name, key) || EndsQuoted(fields[i].name, key)
    {
      StopsExactly(fields[i].name, key);
    }
    var i := FirstStop(fields, key, j, 0);
    if i < j {
      ValuePosGrows(fields, i, j);
    }
    SearchStopsFirst(fields, key, i, cut);
  }

  /** And then what is read of a string is the string, as far as it has arrived. */
  lemma {:induction false} FieldReadRightly(fields: seq<Field>, key: seq<byte>, j: nat, cut: nat)
    requires IsKey(key) && LegalFields(fields) && FirstNamed(fields, key, j) && fields[j].value.Chars?
    requires forall i :: 0 <= i < j ==> !EndsQuoted(fields[i].name, key)
    requires ValuePos(fields, j) < cut <= |Printed(fields)|
    ensures var r, text := ScanString(Printed(fields)[..cut], key), EncodeAll(fields[j].value.cs);
            && r.Some? && r.value <= text
            && (ValuePos(fields, j) + |ValueBytes(fields[j].value)| <= cut ==> r.value == text)
  {
    hide Printed, Stops, Named, EndsQuoted, ValuePos, ValueStart, LegalFields, IsKey, Body, Decode, Spelt;
    forall i | 0 <= i <= j
      ensures Stops(fields[i].name, key) <==> Named(fields[i].name, key) || EndsQuoted(fields[i].name, key)
    {
      StopsExactly(fields[i].name, key);
    }
    assert StopsFirst(fields, key, j);
    SearchStopsFirst(fields, key, j, cut);
    ReadCut(Printed(fields), ValuePos(fields, j), fields[j].value.cs, Body(COMMA, fields[j + 1..]), cut);
  }

  lemma {:induction false} ReadCut(t: seq<byte>, v: nat, cs: seq<scalar>, rest: seq<byte>, cut: nat)
    requires v < cut <= |t| && t[v..] == ValueBytes(Chars(cs)) + rest
    ensures t[v] == QUOTE && var r := Decode(t[..cut][v + 1..]);
            r <= EncodeAll(cs) && (v + |Spelt(cs)| + 2 <= cut ==> r == EncodeAll(cs))
  {
    hide Decode, Spelt, WrittenAll, PrintAll;
    var w, part := Spelt(cs), t[..cut][v + 1..];
    StringCut(t, v, w, rest, cut);
    DecodeInvertsPrint(cs, rest);
    DecodeMonotone(part, t[cut..]);
    assert w == WrittenAll(PrintAll(cs)) by {
      SpeltIs(cs);
    }
    if v + |w| + 2 <= cut {
      WholeString(t, v, w, rest, cut);
      DecodeInvertsPrint(cs, part[|w| + 1..]);
    }
  }

  lemma SpeltIs(cs: seq<scalar>)
    ensures Spelt(cs) == WrittenAll(PrintAll(cs))
  {
  }

  lemma StringCut(t: seq<byte>, v: nat, w: seq<byte>, rest: seq<byte>, cut: nat)
    requires v < cut <= |t| && t[v..] == [QUOTE] + w + [QUOTE] + rest
    ensures t[v] == QUOTE && t[..cut][v + 1..] + t[cut..] == w + ([QUOTE] + rest)
  {
    assert t[v] == t[v..][0];
    assert t[..cut][v + 1..] + t[cut..] == t[v..][1..];
  }

  lemma WholeString(t: seq<byte>, v: nat, w: seq<byte>, rest: seq<byte>, cut: nat)
    requires v + |w| + 2 <= cut <= |t| && t[v..] == [QUOTE] + w + [QUOTE] + rest
    ensures var part := t[..cut][v + 1..]; part == w + ([QUOTE] + part[|w| + 1..])
  {
    var part := t[..cut][v + 1..];
    StringCut(t, v, w, rest, cut);
    var all := part + t[cut..];
    assert part[..|w|] == all[..|w|] == w && part[|w|] == all[|w|] == QUOTE;
    assert part == part[..|w|] + ([part[|w|]] + part[|w| + 1..]);
  }

  // ----- A name that misleads -----

  /** `{"a\"t":"x` has no field `t`, and gives `x` for it. */
  lemma FalseKey()
    ensures ScanString([OPEN_BRACE, QUOTE, 0x61, BACKSLASH, QUOTE, 0x74, QUOTE, COLON, QUOTE, 0x78], [0x74])
         == Some([0x78])
  {
    hide ScanString;
    var bytes: seq<byte> := [OPEN_BRACE, QUOTE, 0x61, BACKSLASH, QUOTE, 0x74, QUOTE, COLON, QUOTE, 0x78];
    FieldAt(bytes, 0x74, 4, 0x78);
  }
}
