/** Option and Result, used for the Python code's `None` returns and raised errors. */
module Wrappers {

  datatype Option<T> = None | Some(value: T) {
    /** `d.get(key, default)` once the lookup has been made. */
    function GetOr(default: T): T {
      match this
      case Some(v) => v
      case None => default
    }
  }

  datatype Result<T, E> = Success(value: T) | Failure(error: E)
}

/**
 * The few Python string built-ins the core relies on: `str.isspace`,
 * `str.strip`, `str.startswith`, `in` on strings, `"{:<w}".format`,
 * `re.split(r"\s+", s, 1)` and `re.sub(r"[\s\d]", "", s)`.
 */
module PyStr {

  /** The characters for which Python's `str.isspace` (and the regex class `\s`) holds. */
  predicate IsSpace(c: char) {
    || ('\t' <= c <= '\r')
    || ('\U{1C}' <= c <= '\U{1F}')
    || c == ' '
    || c == '\U{85}'
    || c == '\U{A0}'
    || c == '\U{1680}'
    || ('\U{2000}' <= c <= '\U{200A}')
    || c == '\U{2028}'
    || c == '\U{2029}'
    || c == '\U{202F}'
    || c == '\U{205F}'
    || c == '\U{3000}'
  }

  /** The ASCII decimal digits (the model's reading of the regex class `\d`). */
  predicate IsDigit(c: char) {
    '0' <= c <= '9'
  }

  predicate NoSpace(s: string) {
    forall i :: 0 <= i < |s| ==> !IsSpace(s[i])
  }

  predicate NoSpaceOrDigit(s: string) {
    forall i :: 0 <= i < |s| ==> !IsSpace(s[i]) && !IsDigit(s[i])
  }

  /** `s.lstrip()`: drops the leading whitespace and nothing else. */
  function TrimLeft(s: string): (r: string)
    ensures |r| <= |s|
    ensures r == [] || !IsSpace(r[0])
  {
    if s != [] && IsSpace(s[0]) then TrimLeft(s[1..]) else s
  }

  /** `s.rstrip()`: drops the trailing whitespace and nothing else. */
  function TrimRight(s: string): (r: string)
    ensures |r| <= |s|
    ensures r == [] || !IsSpace(r[|r| - 1])
    ensures r != [] ==> r[0] == s[0]
  {
    if s != [] && IsSpace(s[|s| - 1]) then TrimRight(s[..|s| - 1]) else s
  }

  /** `lstrip` drops a leading whitespace run: what is left is a suffix. */
  lemma {:induction false} TrimLeftSuffix(s: string)
    ensures var r := TrimLeft(s);
            r == s[|s| - |r|..] && forall i :: 0 <= i < |s| - |r| ==> IsSpace(s[i])
  {
    if s != [] && IsSpace(s[0]) {
      TrimLeftSuffix(s[1..]);
    }
  }

  /** `rstrip` drops a trailing whitespace run: what is left is a prefix. */
  lemma {:induction false} TrimRightPrefix(s: string)
    ensures var r := TrimRight(s);
            r == s[..|r|] && forall i :: |r| <= i < |s| ==> IsSpace(s[i])
  {
    if s != [] && IsSpace(s[|s| - 1]) {
      TrimRightPrefix(s[..|s| - 1]);
    }
  }

  /** `s.strip()`. */
  function Strip(s: string): (r: string)
    ensures r == [] || (!IsSpace(r[0]) && !IsSpace(r[|r| - 1]))
  {
    TrimRight(TrimLeft(s))
  }

  /** A string that neither starts nor ends with whitespace is its own strip. */
  lemma StripUnchanged(s: string)
    requires s != [] && !IsSpace(s[0]) && !IsSpace(s[|s| - 1])
    ensures Strip(s) == s
  {
  }

  /** `s.startswith(prefix)`. */
  predicate StartsWith(s: string, prefix: string) {
    prefix == [] || (s != [] && s[0] == prefix[0] && StartsWith(s[1..], prefix[1..]))
  }

  lemma StartsWithChar(s: string, c: char)
    ensures StartsWith(s, [c]) <==> s != [] && s[0] == c
  {
    assert [c][1..] == [];
  }

  /** `sub in s` for strings. */
  predicate Contains(s: string, sub: string) {
    StartsWith(s, sub) || (s != [] && Contains(s[1..], sub))
  }

  /** `s.startswith(prefix)` holds exactly when `prefix` is the first `|prefix|` characters of `s`. */
  lemma {:induction false} StartsWithPrefix(s: string, prefix: string)
    ensures StartsWith(s, prefix) <==> |prefix| <= |s| && s[..|prefix|] == prefix
    decreases |prefix|
  {
    if prefix != [] && s != [] {
      StartsWithPrefix(s[1..], prefix[1..]);
      if |prefix| <= |s| {
        assert s[..|prefix|] == [s[0]] + s[1..][..|prefix| - 1];
        assert prefix == [prefix[0]] + prefix[1..];
      }
    }
  }

  /** `sub` occurs in `s` starting at position `i`. */
  predicate OccursAt(s: string, sub: string, i: int)
  {
    0 <= i <= |s| - |sub| && s[i..i + |sub|] == sub
  }

  /** `sub in s` holds exactly when `sub` occurs in `s` at some position. */
  lemma {:induction false} ContainsAt(s: string, sub: string)
    ensures Contains(s, sub) <==> exists i :: OccursAt(s, sub, i)
    decreases |s|
  {
    StartsWithPrefix(s, sub);
    if StartsWith(s, sub) {
      assert OccursAt(s, sub, 0);
    }
    if s == [] {
      if exists i :: OccursAt(s, sub, i) {
        assert s[..|sub|] == sub;
      }
    } else {
      var t := s[1..];
      ContainsAt(t, sub);
      if Contains(s, sub) {
        if StartsWith(s, sub) {
          assert OccursAt(s, sub, 0);
        } else {
          var j :| OccursAt(t, sub, j);
          assert s[j + 1..j + 1 + |sub|] == t[j..j + |sub|];
          assert OccursAt(s, sub, j + 1);
        }
      }
      if exists i :: OccursAt(s, sub, i) {
        var i :| OccursAt(s, sub, i);
        if i == 0 {
          assert s[..|sub|] == sub;
        } else {
          assert t[i - 1..i - 1 + |sub|] == s[i..i + |sub|];
          assert OccursAt(t, sub, i - 1);
        }
      }
    }
  }

  /** `c * n`: the character `c` repeated `n` times. */
  function Repeat(c: char, n: nat): (r: string)
    ensures |r| == n && forall i :: 0 <= i < n ==> r[i] == c
  {
    seq(n, _ => c)
  }

  /** `"{:<w}".format(s)`: `s` padded with spaces on the right up to width `w`, never cut. */
  function PadRight(s: string, w: nat): (r: string)
    ensures |r| == if |s| < w then w else |s|
    ensures r[..|s|] == s
    ensures forall i :: |s| <= i < |r| ==> r[i] == ' '
  {
    if |s| < w then s + Repeat(' ', w - |s|) else s
  }

  /** Index of the first whitespace character of `s`, or `|s|` when there is none. */
  function FirstSpace(s: string): (i: nat)
    ensures i <= |s|
    ensures i < |s| ==> IsSpace(s[i])
    ensures forall j :: 0 <= j < i ==> !IsSpace(s[j])
  {
    if s == [] || IsSpace(s[0]) then 0 else 1 + FirstSpace(s[1..])
  }

  /**
   * `re.split(r"\s+", s, 1)`: the text before the first whitespace run and the
   * text after it, or `[s]` when `s` holds no whitespace.
   */
  function SplitOnce(s: string): (parts: seq<string>)
    ensures |parts| == 1 <==> NoSpace(s)
    ensures |parts| == 1 ==> parts[0] == s
    ensures |parts| != 1 ==> |parts| == 2 && NoSpace(parts[0]) && |parts[0]| < |s| && parts[0] == s[..|parts[0]|]
    ensures |parts| != 1 ==> (parts[0] == [] <==> IsSpace(s[0]))
    ensures |parts| != 1 ==> parts[1] == [] || !IsSpace(parts[1][0])
  {
    var i := FirstSpace(s);
    if i == |s| then [s] else [s[..i], TrimLeft(s[i..])]
  }

  /** `re.sub(r"[\s\d]", "", s)`: `s` with every whitespace character and digit removed. */
  function RemoveSpacesAndDigits(s: string): (r: string)
    ensures |r| <= |s|
    ensures NoSpaceOrDigit(r)
    ensures NoSpaceOrDigit(s) ==> r == s
  {
    if s == [] then []
    else if IsSpace(s[0]) || IsDigit(s[0]) then RemoveSpacesAndDigits(s[1..])
    else [s[0]] + RemoveSpacesAndDigits(s[1..])
  }

  predicate AllSpace(s: string) {
    forall i :: 0 <= i < |s| ==> IsSpace(s[i])
  }

  /** The first whitespace character is the first one after a whitespace-free prefix. */
  lemma {:induction false} FirstSpaceAfter(prefix: string, rest: string)
    requires NoSpace(prefix) && rest != [] && IsSpace(rest[0])
    ensures FirstSpace(prefix + rest) == |prefix|
  {
    if prefix != [] {
      assert (prefix + rest)[1..] == prefix[1..] + rest;
      FirstSpaceAfter(prefix[1..], rest);
    }
  }

  /** `lstrip` removes exactly a leading whitespace run. */
  lemma {:induction false} TrimLeftAfter(gap: string, rest: string)
    requires AllSpace(gap) && (rest == [] || !IsSpace(rest[0]))
    ensures TrimLeft(gap + rest) == rest
  {
    if gap != [] {
      assert (gap + rest)[1..] == gap[1..] + rest;
      TrimLeftAfter(gap[1..], rest);
    } else {
      assert gap + rest == rest;
    }
  }

  /** How `re.split(r"\s+", s, 1)` cuts an identifier, a whitespace run and a remainder. */
  lemma SplitOnceAt(head: string, gap: string, rest: string)
    requires NoSpace(head) && gap != [] && AllSpace(gap) && (rest == [] || !IsSpace(rest[0]))
    ensures SplitOnce(head + gap + rest) == [head, rest]
  {
    var s := head + gap + rest;
    assert s == head + (gap + rest);
    FirstSpaceAfter(head, gap + rest);
    assert s[..|head|] == head;
    assert s[|head|..] == gap + rest;
    TrimLeftAfter(gap, rest);
  }
}
