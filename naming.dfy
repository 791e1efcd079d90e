/**
 * Object-store file names `${Date.now()}-${name}`, built the same way by the
 * upload endpoint (server/index.ts) and by the chat client (components/Chat.tsx).
 * The timestamp is a parameter; it is written in decimal without leading zeros.
 */
module Naming {
  import opened Options

  predicate IsDigit(c: char) {
    '0' <= c <= '9'
  }

  predicate AllDigits(s: string) {
    forall i :: 0 <= i < |s| ==> IsDigit(s[i])
  }

  function DigitChar(d: nat): (c: char)
    requires d < 10
    ensures IsDigit(c) && c as int - '0' as int == d
  {
    ('0' as int + d) as char
  }

  /** The decimal numeral JavaScript prints for a non-negative integer. */
  function DecimalString(n: nat): (s: string)
    ensures s != [] && AllDigits(s)
    ensures |s| > 1 ==> s[0] != '0'
    decreases n
  {
    if n < 10 then [DigitChar(n)] else DecimalString(n / 10) + [DigitChar(n % 10)]
  }

  /** The value of a decimal numeral. */
  function DecimalValue(s: string): nat
    requires AllDigits(s)
  {
    if s == [] then 0 else 10 * DecimalValue(s[..|s| - 1]) + (s[|s| - 1] as int - '0' as int)
  }

  /** Reading back a printed timestamp gives the timestamp. */
  lemma {:induction false} DecimalRoundTrip(n: nat)
    ensures DecimalValue(DecimalString(n)) == n
    decreases n
  {
    var s := DecimalString(n);
    if n >= 10 {
      DecimalRoundTrip(n / 10);
      assert s[..|s| - 1] == DecimalString(n / 10);
    }
  }

  /**
   * The stored file name for an upload made at `now` milliseconds. The first dash
   * in it is the one after the timestamp, whatever dashes `name` holds.
   */
  function FileName(now: nat, name: string): (f: string)
    ensures FirstDash(f) == |DecimalString(now)| < |f|
    ensures AllDigits(f[..FirstDash(f)])
  {
    var d := DecimalString(now);
    var f := d + "-" + name;
    assert f[|d|] == '-';
    assert forall k :: 0 <= k < |d| ==> f[k] == d[k];
    assert f[..|d|] == d;
    f
  }

  /** Index of the first '-' in `s`, or `|s|` when there is none. */
  function FirstDash(s: string): (i: nat)
    ensures i <= |s|
    ensures i < |s| ==> s[i] == '-'
    ensures forall k :: 0 <= k < i ==> s[k] != '-'
  {
    if s == [] then 0 else if s[0] == '-' then 0 else 1 + FirstDash(s[1..])
  }

  /** Splits a stored file name back into its timestamp numeral and original name. */
  function SplitFileName(f: string): Option<(string, string)> {
    var i := FirstDash(f);
    if i < |f| then Some((f[..i], f[i + 1..])) else None
  }

  /** The original name survives in the stored name, whatever dashes it holds. */
  lemma FileNameRoundTrip(now: nat, name: string)
    ensures SplitFileName(FileName(now, name)) == Some((DecimalString(now), name))
  {
    var d := DecimalString(now);
    var f := FileName(now, name);
    assert f[|d|] == '-';
    assert forall k :: 0 <= k < |d| ==> f[k] == d[k];
    assert FirstDash(f) == |d|;
    assert f[..|d|] == d;
    assert f[|d| + 1..] == name;
  }

  /** Distinct (timestamp, name) pairs give distinct stored names. */
  lemma FileNameInjective(t1: nat, n1: string, t2: nat, n2: string)
    requires FileName(t1, n1) == FileName(t2, n2)
    ensures t1 == t2 && n1 == n2
  {
    FileNameRoundTrip(t1, n1);
    FileNameRoundTrip(t2, n2);
    DecimalRoundTrip(t1);
    DecimalRoundTrip(t2);
  }
}
