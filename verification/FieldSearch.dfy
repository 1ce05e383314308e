/**
  What the search for a field of a buffer finds: the first quoted key that white space and a colon
  follow. So when the answer among several spellings of a key is settled for every way the buffer
  may go on.
 */
module FieldSearch {
  import opened Wrappers
  import opened Utf8
  import opened PartialJson

  const COMMA: byte := 0x2C
  const OPEN_BRACE: byte := 0x7B

  // ----- The first key -----

  /** The quoted key stands at `idx`, with nothing but white space between it and a colon. */
  ghost predicate IsKeyAt(bytes: seq<byte>, needle: seq<byte>, idx: nat) {
    && MatchAt(bytes, needle, idx)
    && var cursor := SkipWhitespace(bytes, idx + |needle|);
       cursor < |bytes| && bytes[cursor] == COLON
  }

  ghost predicate NoKeyIn(bytes: seq<byte>, needle: seq<byte>, from: nat, to: nat) {
    forall k: nat :: from <= k < to ==> !IsKeyAt(bytes, needle, k)
  }

  ghost predicate FirstKeyAt(bytes: seq<byte>, needle: seq<byte>, from: nat, idx: nat) {
    from <= idx && IsKeyAt(bytes, needle, idx) && NoKeyIn(bytes, needle, from, idx)
  }

  /** Where the value of the key at `idx` begins. */
  ghost function ValueAfter(bytes: seq<byte>, needle: seq<byte>, idx: nat): (start: nat)
    requires IsKeyAt(bytes, needle, idx)
    ensures start <= |bytes|
  {
    SkipWhitespace(bytes, SkipWhitespace(bytes, idx + |needle|) + 1)
  }

  /** The search finds the value of the first key, and nothing exactly when there is none. */
  lemma {:induction false} ValueStartIsFirst(bytes: seq<byte>, needle: seq<byte>, from: nat)
    requires needle != []
    ensures ValueStart(bytes, needle, from).Some? ==> exists idx :: FirstKeyAt(bytes, needle, from, idx)
    ensures forall idx :: FirstKeyAt(bytes, needle, from, idx) ==>
              ValueStart(bytes, needle, from) == Some(ValueAfter(bytes, needle, idx))
    decreases |bytes| + 1 - from
  {
    hide FindAt, SkipWhitespace, MatchAt;
    if from <= |bytes| {
      NextHitIsFirst(bytes, needle, from);
      match NextHit(bytes, needle, from)
      case NoHit =>
      case Key(_) =>
        var idx := FindAt(bytes, needle, from).value;
        assert FirstKeyAt(bytes, needle, from, idx);
        FirstKeyUnique(bytes, needle, from, idx);
      case NotKey(idx) =>
        ValueStartIsFirst(bytes, needle, idx + 1);
        LaterKeys(bytes, needle, from, idx);
        if ValueStart(bytes, needle, idx + 1).Some? {
          var k :| FirstKeyAt(bytes, needle, idx + 1, k);
          assert FirstKeyAt(bytes, needle, from, k);
        }
    } else {
      NoKeyBeyond(bytes, needle, from);
    }
  }

  lemma NoKeyBeyond(bytes: seq<byte>, needle: seq<byte>, from: nat)
    requires needle != [] && from > |bytes|
    ensures forall idx :: !FirstKeyAt(bytes, needle, from, idx)
  {
  }

  lemma FirstKeyUnique(bytes: seq<byte>, needle: seq<byte>, from: nat, idx: nat)
    requires FirstKeyAt(bytes, needle, from, idx)
    ensures forall k :: FirstKeyAt(bytes, needle, from, k) ==> k == idx
  {
    hide IsKeyAt;
  }

  /** The next hit is the first match: a key, or none. */
  lemma {:induction false} NextHitIsFirst(bytes: seq<byte>, needle: seq<byte>, from: nat)
    requires needle != []
    ensures match NextHit(bytes, needle, from)
            case NoHit => forall k: nat :: from <= k ==> !IsKeyAt(bytes, needle, k)
            case NotKey(idx) => NoKeyIn(bytes, needle, from, idx + 1)
            case Key(start) =>
              var idx := FindAt(bytes, needle, from).value;
              FirstKeyAt(bytes, needle, from, idx) && start == ValueAfter(bytes, needle, idx)
  {
    hide SkipWhitespace, FindAt;
    forall k: nat | from <= k && MatchAt(bytes, needle, k)
      ensures FindAt(bytes, needle, from).Some? && FindAt(bytes, needle, from).value <= k
    {
      FindAtFirst(bytes, needle, from, k);
    }
  }

  lemma LaterKeys(bytes: seq<byte>, needle: seq<byte>, from: nat, idx: nat)
    requires from <= idx && NoKeyIn(bytes, needle, from, idx + 1)
    ensures forall k :: FirstKeyAt(bytes, needle, from, k) <==> FirstKeyAt(bytes, needle, idx + 1, k)
  {
    hide IsKeyAt;
  }

  // ----- Keys in a longer buffer -----

  /** White space that ran to the end of the buffer ends there when something else follows. */
  lemma {:induction false} SkipWhitespaceThrough(bytes: seq<byte>, more: seq<byte>, i: nat)
    requires i <= |bytes| && SkipWhitespace(bytes, i) == |bytes| && more != [] && !Whitespace(more[0])
    ensures SkipWhitespace(bytes + more, i) == |bytes|
    decreases |bytes| - i
  {
    if i < |bytes| {
      SkipWhitespaceThrough(bytes, more, i + 1);
    }
  }

  /** A match inside the buffer is a key of the longer buffer if and only if it was one, unless a colon comes next. */
  lemma KeyBefore(bytes: seq<byte>, more: seq<byte>, needle: seq<byte>, idx: nat)
    requires idx + |needle| <= |bytes| && more != [] && !Whitespace(more[0]) && more[0] != COLON
    ensures IsKeyAt(bytes + more, needle, idx) <==> IsKeyAt(bytes, needle, idx)
    ensures IsKeyAt(bytes, needle, idx) ==>
              ValueAfter(bytes + more, needle, idx) == ValueAfter(bytes, needle, idx)
  {
    hide SkipWhitespace, Whitespace;
    var end := idx + |needle|;
    assert (bytes + more)[idx..end] == bytes[idx..end];
    var cursor := SkipWhitespace(bytes, end);
    SkipOver(bytes, more, end);
    if cursor < |bytes| && bytes[cursor] == COLON {
      SkipOver(bytes, more, cursor + 1);
    }
  }

  lemma SkipOver(bytes: seq<byte>, more: seq<byte>, i: nat)
    requires i <= |bytes| && more != [] && !Whitespace(more[0])
    ensures SkipWhitespace(bytes + more, i) == SkipWhitespace(bytes, i)
  {
    hide SkipWhitespace, Whitespace;
    if SkipWhitespace(bytes, i) < |bytes| {
      SkipWhitespaceStable(bytes, more, i);
    } else {
      SkipWhitespaceThrough(bytes, more, i);
    }
  }

  // ----- White space and numbers -----

  /** White space of section 2 of RFC 8259. */
  predicate JsonSpace(b: byte) {
    b in {0x20, 0x09, 0x0A, 0x0D}
  }

  predicate JsonSpaces(gap: seq<byte>) {
    forall i :: 0 <= i < |gap| ==> JsonSpace(gap[i])
  }

  /** The skip ends at the first byte that is no white space. */
  lemma {:induction false} SkipGap(pre: seq<byte>, gap: seq<byte>, b: byte, rest: seq<byte>)
    requires !JsonSpace(b)
    ensures JsonSpaces(gap) ==> SkipWhitespace(pre + gap + [b] + rest, |pre|) == |pre| + |gap|
    ensures !JsonSpaces(gap) ==>
              var j := SkipWhitespace(pre + gap + [b] + rest, |pre|);
              |pre| <= j < |pre| + |gap| && !JsonSpace(gap[j - |pre|])
    decreases |gap|
  {
    var all := pre + gap + [b] + rest;
    if gap == [] {
      assert all[|pre|] == b;
    } else {
      assert all[|pre|] == gap[0];
      var pre', gap' := pre + [gap[0]], gap[1..];
      assert pre' + gap' + [b] + rest == all;
      SkipGap(pre', gap', b, rest);
      assert forall i :: 0 < i < |gap| ==> gap[i] == gap'[i - 1];
      assert forall i :: 0 <= i < |gap'| ==> gap'[i] == gap[i + 1];
    }
  }

  /** A quoted key is one exactly when only white space stands before the colon. */
  lemma {:induction false} GapExactly(key: seq<byte>, gap: seq<byte>, rest: seq<byte>)
    requires COLON !in gap
    ensures IsKeyAt(Quoted(key) + gap + [COLON] + rest, Quoted(key), 0) <==> JsonSpaces(gap)
  {
    hide SkipWhitespace, JsonSpaces;
    var needle, all := Quoted(key), Quoted(key) + gap + [COLON] + rest;
    assert all[..|needle|] == needle;
    SkipGap(needle, gap, COLON, rest);
    var j := SkipWhitespace(all, |needle|);
    assert |needle| <= j < |needle| + |gap| ==> all[j] == gap[j - |needle|];
  }

  /** The value begins after the white space that follows the colon. */
  lemma {:induction false} ValueAfterGap(key: seq<byte>, gap: seq<byte>, gap': seq<byte>, b: byte, rest: seq<byte>)
    requires JsonSpaces(gap) && JsonSpaces(gap') && !JsonSpace(b)
    ensures var all := Quoted(key) + gap + [COLON] + (gap' + [b] + rest);
            && ValueStart(all, Quoted(key), 0) == Some(|key| + |gap| + |gap'| + 3)
            && all[|key| + |gap| + |gap'| + 3..] == [b] + rest
  {
    hide SkipWhitespace, ValueStart, Quoted;
    var needle, tail := Quoted(key), gap' + [b] + rest;
    var all := needle + gap + [COLON] + tail;
    QuotedLength(key);
    NoColonInSpaces(gap);
    GapExactly(key, gap, tail);
    SkipGap(needle, gap, COLON, tail);
    assert needle + gap + [COLON] + gap' + [b] + rest == all;
    SkipGap(needle + gap + [COLON], gap', b, rest);
    assert FirstKeyAt(all, needle, 0, 0);
    ValueStartIsFirst(all, needle, 0);
  }

  lemma NoColonInSpaces(gap: seq<byte>)
    requires JsonSpaces(gap)
    ensures COLON !in gap
  {
  }

  lemma QuotedLength(key: seq<byte>)
    ensures |Quoted(key)| == |key| + 2 && Quoted(key) != []
  {
  }

  /** What the numbers of section 6 of RFC 8259 are written in: digits, signs, a point and an exponent mark. */
  predicate OfNumber(b: byte) {
    0x30 <= b <= 0x39 || b in {0x2B, 0x2D, 0x2E, 0x45, 0x65}
  }

  /** A field that starts with bytes of a number gives just those exactly when the next byte is none. */
  lemma {:induction false} NumberReadExactly(key: seq<byte>, text: seq<byte>, end: byte, rest: seq<byte>)
    requires text != [] && forall i :: 0 <= i < |text| ==> OfNumber(text[i])
    ensures NumberText(Quoted(key) + [COLON] + text + [end] + rest, key) == Some(text) <==> !OfNumber(end)
  {
    hide ValueStart, Quoted, NumberText, SkipWhitespace;
    var start := |key| + 3;
    var all := Quoted(key) + [COLON] + text + [end] + rest;
    var tail := text[1..] + [end] + rest;
    QuotedLength(key);
    ValueAfterGap(key, [], [], text[0], tail);
    assert Quoted(key) + [] + [COLON] + ([] + [text[0]] + tail) == all;
    forall i | 0 <= i < |text| ensures all[start + i] == text[i] {
    }
    assert all[start + |text|] == end && all[start..start + |text|] == text;
    NumberTextExactly(all, key, text);
    if !OfNumber(end) {
      forall k | start <= k < start + |text| ensures NumberByte(all[k]) {
        assert all[start + (k - start)] == text[k - start];
      }
      assert NumberEndsAt(all, start, start + |text|);
    }
  }

  /** A field that starts with any other byte gives no number. */
  lemma {:induction false} NoNumberRead(key: seq<byte>, b: byte, rest: seq<byte>)
    requires !OfNumber(b) && !JsonSpace(b)
    ensures NumberText(Quoted(key) + [COLON] + [b] + rest, key) == None
  {
    hide ValueStart, Quoted, SkipWhitespace;
    QuotedLength(key);
    ValueAfterGap(key, [], [], b, rest);
    var all := Quoted(key) + [COLON] + [b] + rest;
    assert Quoted(key) + [] + [COLON] + ([] + [b] + rest) == all;
    assert all[|key| + 3] == b;
  }

  // ----- Opening a field -----

  /** The value of the field has begun, and is not a string. */
  predicate Blocked(bytes: seq<byte>, key: seq<byte>) {
    var start := ValueStart(bytes, Quoted(key), 0);
    start.Some? && start.value < |bytes| && bytes[start.value] != QUOTE
  }

  const EMPTY_STRING: seq<byte> := [QUOTE, QUOTE]

  /** A field whose value is next. */
  lemma {:induction false} OpenValue(bytes: seq<byte>, key: seq<byte>)
    requires ValueStart(bytes, Quoted(key), 0) == Some(|bytes|)
    ensures ScanString(bytes + EMPTY_STRING, key) == Some([])
  {
    hide SkipWhitespace, ValueStart, IsKeyAt, ValueAfter;
    var needle := Quoted(key);
    ValueStartIsFirst(bytes, needle, 0);
    var idx :| FirstKeyAt(bytes, needle, 0, idx);
    KeyInside(bytes, needle, idx);
    forall k: nat | k <= idx
      ensures IsKeyAt(bytes + EMPTY_STRING, needle, k) <==> IsKeyAt(bytes, needle, k)
      ensures IsKeyAt(bytes, needle, k) ==>
                ValueAfter(bytes + EMPTY_STRING, needle, k) == ValueAfter(bytes, needle, k)
    {
      KeyBefore(bytes, EMPTY_STRING, needle, k);
    }
    assert FirstKeyAt(bytes + EMPTY_STRING, needle, 0, idx);
    ValueStartIsFirst(bytes + EMPTY_STRING, needle, 0);
    assert (bytes + EMPTY_STRING)[|bytes| + 1..] == [QUOTE];
    EmptyString(bytes + EMPTY_STRING, key, |bytes|);
  }

  lemma KeyInside(bytes: seq<byte>, needle: seq<byte>, idx: nat)
    requires IsKeyAt(bytes, needle, idx)
    ensures idx + |needle| <= |bytes|
  {
  }

  lemma EmptyString(bytes: seq<byte>, key: seq<byte>, start: nat)
    requires ValueStart(bytes, Quoted(key), 0) == Some(start)
    requires start + 2 == |bytes| && bytes[start] == QUOTE && bytes[start + 1] == QUOTE
    ensures ScanString(bytes, key) == Some([])
  {
    hide ValueStart;
    assert bytes[start + 1..] == [QUOTE];
  }

  /** A byte that no key of the buffer can run over into the one that follows it. */
  function Separator(key: seq<byte>): byte {
    if key != [] && key[|key| - 1] == COMMA then OPEN_BRACE else COMMA
  }

  /** The field, opened anew, with the empty string for a value. */
  function Opened(key: seq<byte>): seq<byte> {
    [Separator(key)] + Quoted(key) + [COLON] + EMPTY_STRING
  }

  /** A field that is nowhere in the buffer. */
  lemma {:induction false} OpenField(bytes: seq<byte>, key: seq<byte>)
    requires QUOTE !in key && ValueStart(bytes, Quoted(key), 0).None?
    ensures ScanString(bytes + Opened(key), key) == Some([])
  {
    hide SkipWhitespace, ValueStart, IsKeyAt, ValueAfter, Opened;
    var needle, all := Quoted(key), bytes + Opened(key);
    var idx := |bytes| + 1;
    NewKey(bytes, key);
    forall k: nat | k < idx ensures !IsKeyAt(all, needle, k) {
      NoEarlierKey(bytes, key, k);
    }
    assert FirstKeyAt(all, needle, 0, idx);
    ValueStartIsFirst(all, needle, 0);
    EmptyString(all, key, idx + |needle| + 1);
  }

  lemma NewKey(bytes: seq<byte>, key: seq<byte>)
    ensures var needle, all, idx := Quoted(key), bytes + Opened(key), |bytes| + 1;
            && IsKeyAt(all, needle, idx) && ValueAfter(all, needle, idx) == idx + |needle| + 1
            && |all| == idx + |needle| + 3 && all[idx + |needle| + 1] == QUOTE && all[idx + |needle| + 2] == QUOTE
  {
    var needle, all, idx := Quoted(key), bytes + Opened(key), |bytes| + 1;
    assert all[idx..idx + |needle|] == needle;
    assert all[idx + |needle|] == COLON && all[idx + |needle| + 1] == QUOTE;
    assert SkipWhitespace(all, idx + |needle|) == idx + |needle|;
    assert SkipWhitespace(all, idx + |needle| + 1) == idx + |needle| + 1;
  }

  lemma {:induction false} NoEarlierKey(bytes: seq<byte>, key: seq<byte>, k: nat)
    requires QUOTE !in key && ValueStart(bytes, Quoted(key), 0).None? && k <= |bytes|
    ensures !IsKeyAt(bytes + Opened(key), Quoted(key), k)
  {
    hide SkipWhitespace, ValueStart, MatchAt;
    var needle, all := Quoted(key), bytes + Opened(key);
    if k + |needle| <= |bytes| {
      KeyBefore(bytes, Opened(key), needle, k);
      NoKeyAnywhere(bytes, needle, k);
    } else {
      NoOverrun(bytes, key, k);
    }
  }

  /** The key does not match where it would run over the separator. */
  lemma NoOverrun(bytes: seq<byte>, key: seq<byte>, k: nat)
    requires QUOTE !in key && k <= |bytes| < k + |Quoted(key)|
    ensures !MatchAt(bytes + Opened(key), Quoted(key), k)
  {
    var needle, all := Quoted(key), bytes + Opened(key);
    var sep := |bytes| - k;
    assert all[k + sep] == Separator(key) && all[k + sep + 1] == QUOTE;
    var at := if sep == 0 || sep >= |key| then sep else sep + 1;
    assert needle[at] != all[k + at] by {
      if 0 < sep <= |key| {
        assert needle[at] == key[at - 1] && key[at - 1] in key;
      }
    }
    if k + |needle| <= |all| {
      assert all[k..k + |needle|][at] == all[k + at];
    }
  }

  lemma {:induction false} LeastKey(bytes: seq<byte>, needle: seq<byte>, from: nat, k: nat)
    requires from <= k && IsKeyAt(bytes, needle, k)
    ensures exists idx :: FirstKeyAt(bytes, needle, from, idx)
    decreases k
  {
    hide IsKeyAt;
    if NoKeyIn(bytes, needle, from, k) {
      assert FirstKeyAt(bytes, needle, from, k);
    } else {
      var j: nat :| from <= j < k && IsKeyAt(bytes, needle, j);
      LeastKey(bytes, needle, from, j);
    }
  }

  lemma {:induction false} NoKeyAnywhere(bytes: seq<byte>, needle: seq<byte>, k: nat)
    requires needle != [] && ValueStart(bytes, needle, 0).None?
    ensures !IsKeyAt(bytes, needle, k)
  {
    hide IsKeyAt, ValueStart;
    ValueStartIsFirst(bytes, needle, 0);
    if IsKeyAt(bytes, needle, k) {
      LeastKey(bytes, needle, 0, k);
      assert false;
    }
  }

  /** A field that gives no string, and is not blocked, can be opened. */
  lemma {:induction false} OpenUnblocked(bytes: seq<byte>, key: seq<byte>) returns (more: seq<byte>)
    requires QUOTE !in key && ScanString(bytes, key).None? && !Blocked(bytes, key)
    ensures ScanString(bytes + more, key) == Some([])
  {
    hide ValueStart;
    if ValueStart(bytes, Quoted(key), 0).None? {
      OpenField(bytes, key);
      more := Opened(key);
    } else {
      OpenValue(bytes, key);
      more := EMPTY_STRING;
    }
  }

  /** A blocked field never gives a string. */
  lemma {:induction false} BlockedForever(bytes: seq<byte>, more: seq<byte>, key: seq<byte>)
    requires Blocked(bytes, key)
    ensures Blocked(bytes + more, key) && ScanString(bytes + more, key).None?
  {
    hide ValueStart, Quoted;
    ValueStartStable(bytes, more, key, 0);
  }

  // ----- Several spellings of one key -----

  /** No earlier spelling can displace the one that answers. */
  ghost predicate Settled(bytes: seq<byte>, keys: seq<seq<byte>>) {
    forall j :: 0 <= j < Answering(bytes, keys) ==> Blocked(bytes, keys[j])
  }

  ghost predicate Grows(bytes: seq<byte>, more: seq<byte>, keys: seq<seq<byte>>)
    requires ExtractString(bytes, keys).Some?
  {
    && ExtractString(bytes + more, keys).Some?
    && ExtractString(bytes, keys).value <= ExtractString(bytes + more, keys).value
  }

  lemma {:induction false} AnsweringFirst(bytes: seq<byte>, keys: seq<seq<byte>>, i: nat)
    requires i < |keys| && ScanString(bytes, keys[i]).Some?
    requires forall j :: 0 <= j < i ==> ScanString(bytes, keys[j]).None?
    ensures Answering(bytes, keys) == i && ExtractString(bytes, keys) == ScanString(bytes, keys[i])
  {
    hide ScanString;
    if i > 0 {
      AnsweringFirst(bytes, keys[1..], i - 1);
    }
  }

  lemma {:induction false} AnsweringIsFirst(bytes: seq<byte>, keys: seq<seq<byte>>)
    ensures forall j :: 0 <= j < Answering(bytes, keys) ==> ScanString(bytes, keys[j]).None?
    ensures ExtractString(bytes, keys).Some? ==> Answering(bytes, keys) < |keys|
  {
    hide ScanString;
    if keys != [] && ScanString(bytes, keys[0]).None? {
      AnsweringIsFirst(bytes, keys[1..]);
      forall j | 0 <= j < Answering(bytes, keys) ensures ScanString(bytes, keys[j]).None? {
        assert j > 0 ==> keys[j] == keys[1..][j - 1];
      }
    }
  }

  lemma {:induction false} SettledGrows(bytes: seq<byte>, more: seq<byte>, keys: seq<seq<byte>>)
    requires ExtractString(bytes, keys).Some? && Settled(bytes, keys)
    ensures Grows(bytes, more, keys)
  {
    hide ScanString, Blocked, ExtractString;
    var i := Answering(bytes, keys);
    AnsweringIsFirst(bytes, keys);
    ScanStringMonotone(bytes, more, keys[i]);
    forall j | 0 <= j < i ensures ScanString(bytes + more, keys[j]).None? {
      BlockedForever(bytes, more, keys[j]);
    }
    AnsweringFirst(bytes + more, keys, i);
  }

  /** The first spelling that is not blocked, opened with nothing in it, displaces the answer. */
  lemma {:induction false} UnsettledDisplaced(bytes: seq<byte>, keys: seq<seq<byte>>, n: nat) returns (more: seq<byte>)
    requires (forall key :: key in keys ==> QUOTE !in key) && ExtractString(bytes, keys).Some?
    requires n < Answering(bytes, keys) && !Blocked(bytes, keys[n])
    requires forall j :: 0 <= j < n ==> Blocked(bytes, keys[j])
    ensures ExtractString(bytes + more, keys) == Some([])
  {
    hide ScanString, Blocked, ExtractString;
    AnsweringIsFirst(bytes, keys);
    assert keys[n] in keys;
    more := OpenUnblocked(bytes, keys[n]);
    forall j | 0 <= j < n ensures ScanString(bytes + more, keys[j]).None? {
      BlockedForever(bytes, more, keys[j]);
    }
    AnsweringFirst(bytes + more, keys, n);
  }

  /**
    With several spellings of a key, the value only ever grows, however the buffer goes on, if
    and only if it is still empty or the value of every earlier spelling has begun and is no string.
   */
  lemma {:induction false} ExtractGrowsExactly(bytes: seq<byte>, keys: seq<seq<byte>>)
    requires (forall key :: key in keys ==> QUOTE !in key) && ExtractString(bytes, keys).Some?
    ensures (forall more :: Grows(bytes, more, keys))
       <==> ExtractString(bytes, keys) == Some([]) || Settled(bytes, keys)
  {
    hide ScanString, Blocked, ExtractString;
    if ExtractString(bytes, keys) == Some([]) {
      forall more ensures Grows(bytes, more, keys) {
        ExtractStringMonotone(bytes, more, keys);
      }
    } else if Settled(bytes, keys) {
      forall more ensures Grows(bytes, more, keys) {
        SettledGrows(bytes, more, keys);
      }
    } else {
      var n := FirstUnblocked(bytes, keys, 0);
      var more := UnsettledDisplaced(bytes, keys, n);
      assert !Grows(bytes, more, keys);
    }
  }

  lemma {:induction false} FirstUnblocked(bytes: seq<byte>, keys: seq<seq<byte>>, from: nat) returns (n: nat)
    requires !Settled(bytes, keys) && from <= Answering(bytes, keys)
    requires forall j :: 0 <= j < from ==> Blocked(bytes, keys[j])
    ensures n < Answering(bytes, keys) && !Blocked(bytes, keys[n])
    ensures forall j :: 0 <= j < n ==> Blocked(bytes, keys[j])
    decreases Answering(bytes, keys) - from
  {
    hide Blocked, Answering;
    if from < Answering(bytes, keys) && Blocked(bytes, keys[from]) {
      n := FirstUnblocked(bytes, keys, from + 1);
    } else {
      n := from;
    }
  }
}
