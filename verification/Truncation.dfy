/** Byte-capped truncation of display text: conversation.rs, `truncate_text_bytes`. */
module Truncation {
  import opened Utf8

  /** The longest prefix of `s` of at most `n` bytes that is itself valid text. */
  function Fit(s: seq<byte>, n: nat): (r: seq<byte>)
    requires n <= |s|
    ensures r <= s && |r| <= n && Valid(r)
    ensures forall k :: |r| < k <= n ==> !Valid(s[..k])
    decreases n
  {
    if Valid(s[..n]) then s[..n] else Fit(s, n - 1)
  }

  function Min(a: nat, b: nat): nat {
    if a < b then a else b
  }

  function Truncated(value: seq<byte>, cap: nat, suffix: seq<byte>): seq<byte> {
    if |value| <= cap then value
    else
      var tail := Fit(suffix, Min(|suffix|, cap));
      Fit(value, cap - |tail|) + tail
  }

  /** Steps back from `n` to a character boundary. */
  method BackToBoundary(s: seq<byte>, n: nat) returns (end: nat)
    requires Valid(s) && n <= |s|
    ensures end <= n && s[..end] == Fit(s, n)
  {
    end := n;
    while end > 0 && !IsCharBoundary(s, end)
      invariant end <= n
      invariant Fit(s, end) == Fit(s, n)
    {
      BoundaryIffValidPrefix(s, end);
      end := end - 1;
    }
    BoundaryIffValidPrefix(s, end);
  }

  method TruncateTextBytes(value: seq<byte>, cap: nat, suffix: seq<byte>) returns (r: seq<byte>)
    requires Valid(value) && Valid(suffix)
    ensures r == Truncated(value, cap, suffix)
    ensures |r| <= cap && Valid(r)
  {
    hide Valid, Fit;
    TruncatedFits(value, cap, suffix);
    if |value| <= cap {
      return value;
    }
    var suffixEnd := BackToBoundary(suffix, Min(|suffix|, cap));
    var kept := suffix[..suffixEnd];
    var end := BackToBoundary(value, Min(cap - |kept|, |value|));
    r := value[..end] + kept;
  }

  lemma TruncatedFits(value: seq<byte>, cap: nat, suffix: seq<byte>)
    requires Valid(value)
    ensures |Truncated(value, cap, suffix)| <= cap && Valid(Truncated(value, cap, suffix))
  {
    hide Valid;
    if cap < |value| {
      var tail := Fit(suffix, Min(|suffix|, cap));
      ValidConcat(Fit(value, cap - |tail|), tail);
    }
  }

  /** A value is left alone exactly when it is within the cap. */
  lemma WholeIffItFits(value: seq<byte>, cap: nat, suffix: seq<byte>)
    requires Valid(value)
    ensures Truncated(value, cap, suffix) == value <==> |value| <= cap
  {
    TruncatedFits(value, cap, suffix);
  }

  /** Truncating an already truncated text again, whatever the suffix, changes nothing. */
  lemma TruncatedIdempotent(value: seq<byte>, cap: nat, suffix: seq<byte>, other: seq<byte>)
    requires Valid(value)
    ensures Truncated(Truncated(value, cap, suffix), cap, other) == Truncated(value, cap, suffix)
  {
    TruncatedFits(value, cap, suffix);
  }

  /**
    An over-long value is cut to a prefix of itself and a prefix of the suffix, each valid and
    each as long as it can be: the suffix within the cap, the value within what that leaves.
   */
  lemma {:induction false} TruncatedIsLongest(value: seq<byte>, cap: nat, suffix: seq<byte>)
    returns (front: seq<byte>, tail: seq<byte>)
    requires Valid(value) && cap < |value|
    ensures Truncated(value, cap, suffix) == front + tail
    ensures front <= value && Valid(front) && tail <= suffix && Valid(tail)
    ensures forall k :: |tail| < k <= |suffix| && k <= cap ==> !Valid(suffix[..k])
    ensures forall k :: |front| < k && k + |tail| <= cap ==> !Valid(value[..k])
  {
    tail := Fit(suffix, Min(|suffix|, cap));
    front := Fit(value, cap - |tail|);
  }
}
