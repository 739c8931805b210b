/** Shared value types: octets, optional and fallible results, and the small
    string and sequence helpers that the decoder and the mapper both use. */
module Common {

  /** An octet of a captured frame (Rust `u8`). */
  type byte = bv8

  /** Rust `i8`: the antenna signal in dBm. */
  type i8 = x: int | -128 <= x < 128

  /** Rust `u8` used as a number (the current channel). */
  type u8 = x: int | 0 <= x < 256

  datatype Option<T> = None | Some(value: T)

  datatype Result<T, E> = Success(value: T) | Failure(error: E)

  function Min(a: int, b: int): int { if a <= b then a else b }

  /** The octet holding a number below 256. It is built by counting up, so
      that its value is known from the contract alone. */
  function OctetOf(n: nat): (b: byte)
    requires n < 256
    ensures b as int == n
  {
    if n == 0 then 0 else OctetOf(n - 1) + 1
  }

  /** Every octet is the octet of its own value. */
  lemma OctetOfValue(b: byte)
    ensures OctetOf(b as int) == b
  {
    var c := OctetOf(b as int);
    assert c as int == b as int;
  }

  /** Rust `str::starts_with`. */
  predicate StartsWith(s: string, prefix: string)
  {
    |prefix| <= |s| && s[..|prefix|] == prefix
  }

  /** Rust `str::contains` with a string pattern: `sub` occurs at some offset of `s`. */
  predicate Contains(s: string, sub: string)
    decreases |s|
  {
    StartsWith(s, sub) || (|s| > 0 && Contains(s[1..], sub))
  }

  /** A string contains only patterns no longer than itself. */
  lemma {:induction false} ContainsOnlyShorter(s: string, sub: string)
    requires Contains(s, sub)
    ensures |sub| <= |s|
    decreases |s|
  {
    if !StartsWith(s, sub) {
      ContainsOnlyShorter(s[1..], sub);
    }
  }

  /** A pattern found at offset `k` is contained. */
  lemma {:induction false} ContainsSuffix(s: string, sub: string, k: nat)
    requires k <= |s| && StartsWith(s[k..], sub)
    ensures Contains(s, sub)
    decreases k
  {
    if k > 0 {
      assert s[1..][k - 1..] == s[k..];
      ContainsSuffix(s[1..], sub, k - 1);
    }
  }

  /** Rust `str::split` on one separator character: the pieces between
      separators, in order; a string without the separator is one piece. */
  function Split(s: string, sep: char): (r: seq<string>)
    ensures |r| >= 1
    ensures sep !in s ==> r == [s]
    decreases |s|
  {
    if sep !in s then [s]
    else
      var i := IndexOf(s, sep);
      [s[..i]] + Split(s[i + 1..], sep)
  }

  /** The first position of `c` in `s`. */
  function IndexOf(s: string, c: char): (i: nat)
    requires c in s
    ensures i < |s| && s[i] == c && c !in s[..i]
  {
    if s[0] == c then 0 else 1 + IndexOf(s[1..], c)
  }

  /** Splitting `a + [sep] + b` where `a` holds no separator yields `a` first. */
  lemma SplitCons(a: string, sep: char, b: string)
    requires sep !in a
    ensures Split(a + [sep] + b, sep) == [a] + Split(b, sep)
  {
    var s := a + [sep] + b;
    assert s[|a|] == sep;
    assert s[..|a|] == a;
    var i := IndexOf(s, sep);
    assert s[..i] == a;
    assert s[i + 1..] == b;
  }

  /** The pieces joined with `sep` between neighbours. */
  function Join(pieces: seq<string>, sep: char): (r: string)
    requires |pieces| >= 1
  {
    if |pieces| == 1 then pieces[0] else pieces[0] + [sep] + Join(pieces[1..], sep)
  }

  /** Splitting undoes joining when no piece holds the separator. */
  lemma {:induction false} SplitJoin(pieces: seq<string>, sep: char)
    requires |pieces| >= 1
    requires forall i :: 0 <= i < |pieces| ==> sep !in pieces[i]
    ensures Split(Join(pieces, sep), sep) == pieces
  {
    if |pieces| > 1 {
      var rest := pieces[1..];
      forall i | 0 <= i < |rest|
        ensures sep !in rest[i]
      {
        assert rest[i] == pieces[i + 1];
      }
      SplitJoin(rest, sep);
      SplitCons(pieces[0], sep, Join(rest, sep));
      assert Join(pieces, sep) == pieces[0] + [sep] + Join(rest, sep);
      assert [pieces[0]] + rest == pieces;
    }
  }

  /** Joining two-character pieces puts the separator at every third position. */
  lemma {:induction false} JoinPairs(pieces: seq<string>, sep: char)
    requires |pieces| >= 1
    requires forall i :: 0 <= i < |pieces| ==> |pieces[i]| == 2
    ensures |Join(pieces, sep)| == 3 * |pieces| - 1
    ensures forall k :: 0 <= k < |pieces| - 1 ==> Join(pieces, sep)[3 * k + 2] == sep
    ensures forall k :: 0 <= k < |pieces| ==> Join(pieces, sep)[3 * k..3 * k + 2] == pieces[k]
  {
    if |pieces| > 1 {
      JoinPairs(pieces[1..], sep);
      var rest := Join(pieces[1..], sep);
      var r := Join(pieces, sep);
      assert r == pieces[0] + [sep] + rest;
      forall k | 1 <= k < |pieces| - 1
        ensures r[3 * k + 2] == sep
      {
        assert r[3 * k + 2] == rest[3 * (k - 1) + 2];
      }
      forall k | 1 <= k < |pieces|
        ensures r[3 * k..3 * k + 2] == pieces[k]
      {
        assert r[3 * k..3 * k + 2] == rest[3 * (k - 1)..3 * (k - 1) + 2];
      }
    }
  }
}
