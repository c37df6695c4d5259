/**
 * The two ECMAScript string methods the scoring engine relies on:
 * `String.prototype.trim` and `String.prototype.toLowerCase`.
 */
module JsString {

  /** The WhiteSpace and LineTerminator code points that `trim` strips from both ends. */
  predicate IsWhitespace(c: char) {
    || c == '\t' || c == '\n' || c == '\U{000B}' || c == '\U{000C}' || c == '\r' || c == ' '
    || c == '\U{00A0}' || c == '\U{1680}' || ('\U{2000}' <= c <= '\U{200A}')
    || c == '\U{2028}' || c == '\U{2029}' || c == '\U{202F}' || c == '\U{205F}'
    || c == '\U{3000}' || c == '\U{FEFF}'
  }

  predicate AllWhitespace(s: string) {
    forall i :: 0 <= i < |s| ==> IsWhitespace(s[i])
  }

  /** `s` with its leading whitespace removed. */
  function TrimStart(s: string): string {
    if |s| > 0 && IsWhitespace(s[0]) then TrimStart(s[1..]) else s
  }

  /** `TrimStart` returns a suffix of its argument. */
  lemma {:induction false} TrimStartSuffix(s: string)
    ensures |TrimStart(s)| <= |s| && TrimStart(s) == s[|s| - |TrimStart(s)|..]
  {
    if |s| > 0 && IsWhitespace(s[0]) {
      TrimStartSuffix(s[1..]);
      var r := TrimStart(s[1..]);
      assert TrimStart(s) == r;
      assert s[1..][|s| - 1 - |r|..] == s[|s| - |r|..];
    }
  }

  /** What `TrimStart` removes is whitespace. */
  lemma {:induction false} TrimStartLeading(s: string)
    ensures |TrimStart(s)| <= |s| && AllWhitespace(s[..|s| - |TrimStart(s)|])
  {
    TrimStartSuffix(s);
    if |s| > 0 && IsWhitespace(s[0]) {
      TrimStartLeading(s[1..]);
      var n := |s| - |TrimStart(s)|;
      forall i | 0 < i < n ensures IsWhitespace(s[i]) {
        assert s[1..][..n - 1][i - 1] == s[i];
      }
    }
  }

  /** What `TrimStart` keeps does not start with whitespace. */
  lemma {:induction false} TrimStartFirst(s: string)
    ensures TrimStart(s) == [] || !IsWhitespace(TrimStart(s)[0])
  {
    if |s| > 0 && IsWhitespace(s[0]) {
      TrimStartFirst(s[1..]);
    }
  }

  /** `s` with its trailing whitespace removed. */
  function TrimEnd(s: string): string {
    if |s| > 0 && IsWhitespace(s[|s| - 1]) then TrimEnd(s[..|s| - 1]) else s
  }

  /** `TrimEnd` returns a prefix of its argument. */
  lemma {:induction false} TrimEndPrefix(s: string)
    ensures |TrimEnd(s)| <= |s| && TrimEnd(s) == s[..|TrimEnd(s)|]
  {
    if |s| > 0 && IsWhitespace(s[|s| - 1]) {
      TrimEndPrefix(s[..|s| - 1]);
      var r := TrimEnd(s[..|s| - 1]);
      assert s[..|s| - 1][..|r|] == s[..|r|];
    }
  }

  /** What `TrimEnd` removes is whitespace. */
  lemma {:induction false} TrimEndTrailing(s: string)
    ensures |TrimEnd(s)| <= |s| && AllWhitespace(s[|TrimEnd(s)|..])
  {
    TrimEndPrefix(s);
    if |s| > 0 && IsWhitespace(s[|s| - 1]) {
      TrimEndTrailing(s[..|s| - 1]);
      var m := |TrimEnd(s)|;
      forall i | m <= i < |s| - 1 ensures IsWhitespace(s[i]) {
        assert s[..|s| - 1][m..][i - m] == s[i];
      }
    }
  }

  /** What `TrimEnd` keeps does not end with whitespace. */
  lemma {:induction false} TrimEndLast(s: string)
    ensures TrimEnd(s) == [] || !IsWhitespace(TrimEnd(s)[|TrimEnd(s)| - 1])
  {
    if |s| > 0 && IsWhitespace(s[|s| - 1]) {
      TrimEndLast(s[..|s| - 1]);
    }
  }

  /**
   * `s.trim()`: leading and trailing whitespace removed. Nothing is left exactly when
   * `s` is all whitespace; otherwise the result starts and ends with a non-whitespace character.
   */
  function Trim(s: string): (r: string)
    ensures |r| <= |s|
    ensures r == [] <==> AllWhitespace(s)
    ensures r == [] || (!IsWhitespace(r[0]) && !IsWhitespace(r[|r| - 1]))
    ensures exists a, b :: 0 <= a <= b <= |s| && r == s[a..b] &&
                           AllWhitespace(s[..a]) && AllWhitespace(s[b..])
  {
    var t := TrimStart(s);
    TrimStartSuffix(s);
    TrimStartLeading(s);
    TrimStartFirst(s);
    var r := TrimEnd(t);
    TrimEndPrefix(t);
    TrimEndTrailing(t);
    TrimEndLast(t);
    var lead := s[..|s| - |t|];
    assert s == lead + t;
    AllWhitespaceConcat(lead, t);
    assert t[0..] == t;
    assert r != [] ==> r[0] == t[0];
    SliceBetweenWhitespace(s, t, r);
    r
  }

  /**
   * A whitespace-free core `r` of a suffix `t` of `s` is a slice of `s` with only whitespace
   * around it, when what `t` drops from `s` and what `r` drops from `t` are whitespace.
   */
  lemma SliceBetweenWhitespace(s: string, t: string, r: string)
    requires |t| <= |s| && t == s[|s| - |t|..] && AllWhitespace(s[..|s| - |t|])
    requires |r| <= |t| && r == t[..|r|] && AllWhitespace(t[|r|..])
    ensures exists a, b :: 0 <= a <= b <= |s| && r == s[a..b] &&
                           AllWhitespace(s[..a]) && AllWhitespace(s[b..])
  {
    var a, b := |s| - |t|, |s| - |t| + |r|;
    assert s[a..b] == r;
    assert s[b..] == t[|r|..];
  }

  /** A concatenation is all whitespace exactly when both parts are. */
  lemma AllWhitespaceConcat(a: string, b: string)
    ensures AllWhitespace(a + b) <==> AllWhitespace(a) && AllWhitespace(b)
  {
    assert forall i :: 0 <= i < |a| ==> (a + b)[i] == a[i];
    assert forall i :: 0 <= i < |b| ==> (a + b)[|a| + i] == b[i];
  }

  /** The ASCII part of `toLowerCase`: 'A'..'Z' become 'a'..'z', everything else is kept. */
  function LowerChar(c: char): (r: char)
    ensures 'A' <= c <= 'Z' ==> 'a' <= r <= 'z' && r as int - c as int == 32
    ensures !('A' <= c <= 'Z') ==> r == c
  {
    if 'A' <= c <= 'Z' then (c as int + 32) as char else c
  }

  /** `s.toLowerCase()`, character by character. */
  function ToLower(s: string): (r: string)
    ensures |r| == |s|
    ensures forall i :: 0 <= i < |s| ==> r[i] == LowerChar(s[i])
  {
    seq(|s|, i requires 0 <= i < |s| => LowerChar(s[i]))
  }

  /** A string that already starts and ends with non-whitespace is left as it is by `trim`. */
  lemma TrimKeepsTrimmed(s: string)
    requires s != [] ==> !IsWhitespace(s[0]) && !IsWhitespace(s[|s| - 1])
    ensures Trim(s) == s
  {
  }

  /** A string without upper-case ASCII letters is left as it is by `toLowerCase`. */
  lemma ToLowerKeepsLower(s: string)
    requires forall i :: 0 <= i < |s| ==> !('A' <= s[i] <= 'Z')
    ensures ToLower(s) == s
  {
  }

  /** Lower-casing twice is lower-casing once. */
  lemma ToLowerIdempotent(s: string)
    ensures ToLower(ToLower(s)) == ToLower(s)
  {
  }

  /** Lower-casing changes no character's whitespace status, so it commutes with the ends of `trim`. */
  lemma LowerCharWhitespace(c: char)
    ensures IsWhitespace(LowerChar(c)) <==> IsWhitespace(c)
  {
  }

  /** Surrounding a trimmed string with spaces is undone by `trim`. */
  lemma TrimUndoesPadding(s: string)
    requires s != [] && !IsWhitespace(s[0]) && !IsWhitespace(s[|s| - 1])
    ensures Trim([' '] + s + [' ']) == s
  {
    assert ([' '] + s + [' '])[1..] == s + [' '];
    assert TrimStart([' '] + s + [' ']) == s + [' '];
    assert (s + [' '])[..|s|] == s;
    assert TrimEnd(s + [' ']) == s;
  }
}
