/**
 * The behaviour of the Rust standard library and the `http` crate that the
 * bearer-header parser relies on: `char::is_whitespace`, `str::split_whitespace`,
 * `str::starts_with` and `HeaderValue::to_str`.
 */
module Strings {
  import opened Wrappers

  /** `char::is_whitespace`: the Unicode White_Space property. */
  predicate IsWhitespace(c: char) {
    var n := c as int;
    (9 <= n <= 13) || n == 32 || n == 0x85 || n == 0xA0 || n == 0x1680
    || (0x2000 <= n <= 0x200A) || n == 0x2028 || n == 0x2029
    || n == 0x202F || n == 0x205F || n == 0x3000
  }

  /** A piece that `split_whitespace` can yield: non-empty, no whitespace in it. */
  predicate IsWord(w: string) {
    |w| > 0 && forall i :: 0 <= i < |w| ==> !IsWhitespace(w[i])
  }

  /** `s.starts_with(prefix)`. */
  predicate StartsWith(s: string, prefix: string) {
    |prefix| <= |s| && s[..|prefix|] == prefix
  }

  /** Length of the leading run of non-whitespace characters of `s`. */
  function WordEnd(s: string): (n: nat)
    ensures n <= |s|
    ensures forall i :: 0 <= i < n ==> !IsWhitespace(s[i])
    ensures n < |s| ==> IsWhitespace(s[n])
  {
    if s == [] || IsWhitespace(s[0]) then 0 else 1 + WordEnd(s[1..])
  }

  /**
   * `s.split_whitespace().collect::<Vec<&str>>()`: the maximal runs of
   * non-whitespace characters of `s`, in order.
   */
  function SplitWhitespace(s: string): (words: seq<string>)
    ensures forall i :: 0 <= i < |words| ==> IsWord(words[i])
    decreases |s|
  {
    if s == [] then []
    else if IsWhitespace(s[0]) then SplitWhitespace(s[1..])
    else
      var n := WordEnd(s);
      [s[..n]] + SplitWhitespace(s[n..])
  }

  /** Reference definition: `words` separated by single spaces. */
  function JoinWords(words: seq<string>): string {
    if words == [] then []
    else if |words| == 1 then words[0]
    else words[0] + " " + JoinWords(words[1..])
  }

  /** Every character of `s` is dropped by the split or lands in some word. */
  function RemoveWhitespace(s: string): (r: string)
    ensures forall i :: 0 <= i < |r| ==> !IsWhitespace(r[i])
    ensures |r| <= |s|
  {
    if s == [] then []
    else if IsWhitespace(s[0]) then RemoveWhitespace(s[1..])
    else [s[0]] + RemoveWhitespace(s[1..])
  }

  function Concat(words: seq<string>): string {
    if words == [] then [] else words[0] + Concat(words[1..])
  }

  lemma {:induction false} WordEndOfWord(w: string, rest: string)
    requires IsWord(w)
    requires rest == [] || IsWhitespace(rest[0])
    ensures WordEnd(w + rest) == |w|
    decreases |w|
  {
    if |w| > 1 {
      assert (w + rest)[1..] == w[1..] + rest;
      WordEndOfWord(w[1..], rest);
    } else {
      assert (w + rest)[1..] == rest;
    }
  }

  /** A word followed by whitespace (or nothing) is split off as the first piece. */
  lemma {:induction false} SplitLeadingWord(w: string, rest: string)
    requires IsWord(w)
    requires rest == [] || IsWhitespace(rest[0])
    ensures SplitWhitespace(w + rest) == [w] + SplitWhitespace(rest)
  {
    WordEndOfWord(w, rest);
    var s := w + rest;
    assert s[..|w|] == w;
    assert s[|w|..] == rest;
  }

  /** `split_whitespace` undoes joining words with single spaces. */
  lemma {:induction false} SplitJoin(words: seq<string>)
    requires forall i :: 0 <= i < |words| ==> IsWord(words[i])
    ensures SplitWhitespace(JoinWords(words)) == words
  {
    if |words| == 1 {
      SplitLeadingWord(words[0], []);
      assert words[0] + [] == words[0];
    } else if |words| > 1 {
      var rest := JoinWords(words[1..]);
      SplitLeadingWord(words[0], " " + rest);
      assert words[0] + " " + rest == words[0] + (" " + rest);
      assert (" " + rest)[1..] == rest;
      SplitJoin(words[1..]);
      assert [words[0]] + words[1..] == words;
    }
  }

  /** The words of a split are exactly the non-whitespace characters of the input, in order. */
  lemma {:induction false} SplitKeepsCharacters(s: string)
    ensures Concat(SplitWhitespace(s)) == RemoveWhitespace(s)
    decreases |s|
  {
    if s != [] {
      if IsWhitespace(s[0]) {
        SplitKeepsCharacters(s[1..]);
      } else {
        var n := WordEnd(s);
        SplitKeepsCharacters(s[n..]);
        RemoveWhitespaceSplit(s, n);
        var words := SplitWhitespace(s);
        assert words == [s[..n]] + SplitWhitespace(s[n..]);
        assert words[0] == s[..n] && words[1..] == SplitWhitespace(s[n..]);
      }
    }
  }

  /** Removing whitespace from a leading word leaves that word intact. */
  lemma {:induction false} RemoveWhitespaceSplit(s: string, n: nat)
    requires n <= |s|
    requires forall i :: 0 <= i < n ==> !IsWhitespace(s[i])
    ensures RemoveWhitespace(s) == s[..n] + RemoveWhitespace(s[n..])
    decreases n
  {
    if n > 0 {
      RemoveWhitespaceSplit(s[1..], n - 1);
      assert s[1..][n - 1..] == s[n..];
      assert s[..n] == [s[0]] + s[1..][..n - 1];
    }
  }

  /** A byte `HeaderValue::to_str` accepts: visible ASCII or horizontal tab. */
  predicate IsVisibleAscii(b: bv8) {
    (32 <= b < 127) || b == 9
  }

  /** `HeaderValue::to_str`: the header text, or `None` if any byte is not visible ASCII. */
  function ToStr(bytes: seq<bv8>): (r: Option<string>)
    ensures r.Some? <==> forall i :: 0 <= i < |bytes| ==> IsVisibleAscii(bytes[i])
    ensures r.Some? ==> |r.value| == |bytes|
                        && forall i :: 0 <= i < |bytes| ==> r.value[i] as int == bytes[i] as int
  {
    if forall i :: 0 <= i < |bytes| ==> IsVisibleAscii(bytes[i])
    then Some(seq(|bytes|, i requires 0 <= i < |bytes| => (bytes[i] as int) as char))
    else None
  }

  /** The bytes of an ASCII string, as a client sends them in a header. */
  function AsciiBytes(s: string): (b: seq<bv8>)
    requires forall i :: 0 <= i < |s| ==> s[i] as int < 128
    ensures |b| == |s| && forall i :: 0 <= i < |s| ==> b[i] as int == s[i] as int
  {
    seq(|s|, i requires 0 <= i < |s| => (s[i] as int) as bv8)
  }

  /** Text made of visible ASCII characters passes `to_str` unchanged. */
  lemma ToStrAscii(s: string)
    requires forall i :: 0 <= i < |s| ==> 32 <= s[i] as int < 127
    ensures ToStr(AsciiBytes(s)) == Some(s)
  {
    var b := AsciiBytes(s);
    assert forall i :: 0 <= i < |b| ==> IsVisibleAscii(b[i]);
    assert ToStr(b).value == s;
  }
}
