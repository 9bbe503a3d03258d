/**
 * The Python string operations the workflow runner relies on, over byte strings
 * as Python 2's `str`: `strip()`, `split(',')`, `replace(pat, rep)`, the slice
 * `s[0:n]` and ASCII `lower()`.
 */
module Text {
  import opened Wrappers

  /** Python 2 `str.isspace()` for one byte: space, \t, \n, \v, \f, \r. */
  predicate IsSpace(c: char) {
    c == ' ' || c == '\t' || c == '\n' || c == '\U{0B}' || c == '\U{0C}' || c == '\r'
  }

  predicate AllSpace(s: string) {
    forall i :: 0 <= i < |s| ==> IsSpace(s[i])
  }

  /** No whitespace at either end: what `strip()` leaves. */
  predicate Trimmed(s: string) {
    s == [] || (!IsSpace(s[0]) && !IsSpace(s[|s| - 1]))
  }

  /** `s.lstrip()`: the suffix of `s` after its leading whitespace. */
  function TrimLeft(s: string): (r: string)
    ensures |r| <= |s| && r == s[|s| - |r|..]
    ensures AllSpace(s[..|s| - |r|])
    ensures r == [] || !IsSpace(r[0])
    decreases |s|
  {
    if s != [] && IsSpace(s[0]) then TrimLeft(s[1..]) else s
  }

  /** `s.rstrip()`: the prefix of `s` before its trailing whitespace. */
  function TrimRight(s: string): (r: string)
    ensures |r| <= |s| && r == s[..|r|]
    ensures AllSpace(s[|r|..])
    ensures r == [] || !IsSpace(r[|r| - 1])
    decreases |s|
  {
    if s != [] && IsSpace(s[|s| - 1]) then TrimRight(s[..|s| - 1]) else s
  }

  /**
   * `s.strip()`: `s` with its whitespace margins removed. The result is the
   * middle of `s`, what surrounds it is whitespace, and its own ends are not.
   */
  function Strip(s: string): (r: string)
    ensures Trimmed(r) && |r| <= |s|
  {
    TrimRight(TrimLeft(s))
  }

  /** What `strip()` removes is whitespace on either side of the result. */
  lemma StripMargins(s: string)
    ensures exists i :: 0 <= i <= |s| - |Strip(s)| && Strip(s) == s[i..i + |Strip(s)|]
                        && AllSpace(s[..i]) && AllSpace(s[i + |Strip(s)|..])
  {
    var l := TrimLeft(s);
    var r := TrimRight(l);
    var i := |s| - |l|;
    assert r == s[i..i + |r|];
    assert s[i + |r|..] == l[|r|..];
    assert AllSpace(s[..i]) && AllSpace(s[i + |r|..]);
    assert 0 <= i <= |s| - |Strip(s)| && Strip(s) == s[i..i + |Strip(s)|]
           && AllSpace(s[..i]) && AllSpace(s[i + |Strip(s)|..]);
  }

  /** A string whose ends are not whitespace is its own strip. */
  lemma StripTrimmed(s: string)
    requires Trimmed(s)
    ensures Strip(s) == s
  {
  }

  /** `strip()` is idempotent. */
  lemma StripIdempotent(s: string)
    ensures Strip(Strip(s)) == Strip(s)
  {
    StripTrimmed(Strip(s));
  }

  /** Whitespace-only input strips to the empty string. */
  lemma {:induction false} StripAllSpace(s: string)
    requires AllSpace(s)
    ensures Strip(s) == []
  {
  }

  /** Number of occurrences of `c` in `s`. */
  function Count(s: string, c: char): nat
    decreases |s|
  {
    if s == [] then 0 else (if s[0] == c then 1 else 0) + Count(s[1..], c)
  }

  /**
   * `s.split(sep)` for a one-character separator: the fields between
   * separators, in order. There is one more field than separators, and no
   * field contains the separator.
   */
  function Split(s: string, sep: char): (parts: seq<string>)
    ensures |parts| == Count(s, sep) + 1
    ensures forall i :: 0 <= i < |parts| ==> sep !in parts[i]
    decreases |s|
  {
    if s == [] then [[]]
    else
      var rest := Split(s[1..], sep);
      if s[0] == sep then [[]] + rest
      else [[s[0]] + rest[0]] + rest[1..]
  }

  /** `sep.join(parts)`. */
  function Join(parts: seq<string>, sep: char): string
    decreases |parts|
  {
    if parts == [] then []
    else if |parts| == 1 then parts[0]
    else parts[0] + [sep] + Join(parts[1..], sep)
  }

  /** Joining the fields back with the separator gives the input: nothing is lost. */
  lemma {:induction false} JoinSplit(s: string, sep: char)
    ensures Join(Split(s, sep), sep) == s
    decreases |s|
  {
    if s != [] {
      JoinSplit(s[1..], sep);
      var rest := Split(s[1..], sep);
      if s[0] == sep {
        assert Split(s, sep) == [[]] + rest;
        assert s == [] + [sep] + Join(rest, sep);
      } else {
        var parts := Split(s, sep);
        assert parts == [[s[0]] + rest[0]] + rest[1..];
        if |rest| == 1 {
          assert Join(parts, sep) == [s[0]] + rest[0];
        } else {
          assert Join(rest, sep) == rest[0] + [sep] + Join(rest[1..], sep);
          assert parts[1..] == rest[1..];
        }
      }
    }
  }

  /** Splitting a join of separator-free fields gives back the fields. */
  lemma {:induction false} SplitJoin(parts: seq<string>, sep: char)
    requires parts != []
    requires forall i :: 0 <= i < |parts| ==> sep !in parts[i]
    ensures Split(Join(parts, sep), sep) == parts
    decreases |parts|
  {
    if |parts| == 1 {
      SplitNoSeparator(parts[0], sep);
      assert Join(parts, sep) == parts[0];
      assert parts == [parts[0]];
    } else {
      var tail := [sep] + Join(parts[1..], sep);
      SplitJoin(parts[1..], sep);
      SplitLeadingSep(Join(parts[1..], sep), sep);
      assert Split(tail, sep) == [[]] + parts[1..];
      SplitPrefix(parts[0], tail, sep);
      assert Join(parts, sep) == parts[0] + tail;
      assert parts[0] + [] == parts[0];
      assert [parts[0]] + parts[1..] == parts;
    }
  }

  lemma {:induction false} SplitNoSeparator(s: string, sep: char)
    requires sep !in s
    ensures Split(s, sep) == [s]
    decreases |s|
  {
    if s != [] {
      SplitNoSeparator(s[1..], sep);
      assert [s[0]] + s[1..] == s;
    }
  }

  lemma SplitLeadingSep(s: string, sep: char)
    ensures Split([sep] + s, sep) == [[]] + Split(s, sep)
  {
    assert ([sep] + s)[1..] == s;
  }

  /** A separator-free head is glued onto the first field of the rest. */
  lemma {:induction false} SplitPrefix(a: string, rest: string, sep: char)
    requires sep !in a
    requires |rest| > 0 && rest[0] == sep
    ensures Split(a + rest, sep) == [a + Split(rest, sep)[0]] + Split(rest, sep)[1..]
    decreases |a|
  {
    if a != [] {
      SplitPrefix(a[1..], rest, sep);
      assert (a + rest)[1..] == a[1..] + rest;
      assert [a[0]] + (a[1..] + Split(rest, sep)[0]) == a + Split(rest, sep)[0];
    } else {
      var parts := Split(rest, sep);
      assert a + rest == rest;
      assert [] + parts[0] == parts[0];
      assert parts == [parts[0]] + parts[1..];
    }
  }

  /** `s.startswith(p)`. */
  predicate StartsWith(s: string, p: string) {
    |p| <= |s| && s[..|p|] == p
  }

  /** `p` occurs nowhere in `s`. */
  predicate Absent(s: string, p: string) {
    forall i :: 0 <= i <= |s| ==> !StartsWith(s[i..], p)
  }

  /**
   * `s.replace(pat, rep)`: a left-to-right scan that replaces each
   * non-overlapping occurrence of `pat`.
   */
  function Replace(s: string, pat: string, rep: string): string
    requires pat != []
    decreases |s|
  {
    if s == [] then []
    else if StartsWith(s, pat) then rep + Replace(s[|pat|..], pat, rep)
    else [s[0]] + Replace(s[1..], pat, rep)
  }

  /** An occurrence of `pat` at the front is replaced, and the scan resumes after it. */
  lemma ReplaceAtFront(pat: string, rest: string, rep: string)
    requires pat != []
    ensures Replace(pat + rest, pat, rep) == rep + Replace(rest, pat, rep)
  {
    var s := pat + rest;
    assert s[..|pat|] == pat && s[|pat|..] == rest;
  }

  /** Text without the first character of `pat` is copied, then the occurrence of `pat` after it is replaced. */
  lemma {:induction false} ReplaceAfterLiteral(x: string, pat: string, rest: string, rep: string)
    requires pat != [] && pat[0] !in x
    ensures Replace(x + pat + rest, pat, rep) == x + rep + Replace(rest, pat, rep)
    decreases |x|
  {
    if x == [] {
      assert x + pat + rest == pat + rest;
      ReplaceAtFront(pat, rest, rep);
    } else {
      var s := x + pat + rest;
      assert s[0] == x[0] && !StartsWith(s, pat);
      assert s[1..] == x[1..] + pat + rest;
      ReplaceAfterLiteral(x[1..], pat, rest, rep);
      assert [x[0]] + (x[1..] + rep + Replace(rest, pat, rep)) == x + rep + Replace(rest, pat, rep);
    }
  }

  /** Where `pat` does not occur, `replace` changes nothing. */
  lemma {:induction false} ReplaceAbsent(s: string, pat: string, rep: string)
    requires pat != []
    requires Absent(s, pat)
    ensures Replace(s, pat, rep) == s
    decreases |s|
  {
    if s != [] {
      assert !StartsWith(s[0..], pat);
      assert s[1..] == s[1..];
      forall i | 0 <= i <= |s[1..]| ensures !StartsWith(s[1..][i..], pat) {
        assert s[1..][i..] == s[i + 1..];
      }
      ReplaceAbsent(s[1..], pat, rep);
    }
  }

  /**
   * A scan that replaces a six-character token by a single character not in
   * that token leaves no occurrence of the token behind, even where the
   * replacement character lands next to text that resembles the token.
   */
  lemma {:induction false} ReplaceLeavesNoToken(s: string, pat: string, c: char)
    requires pat != [] && c !in pat
    ensures Absent(Replace(s, pat, [c]), pat)
    decreases |s|
  {
    var r := Replace(s, pat, [c]);
    if s == [] {
      assert r == [];
    } else if StartsWith(s, pat) {
      ReplaceLeavesNoToken(s[|pat|..], pat, c);
      var rest := Replace(s[|pat|..], pat, [c]);
      assert r == [c] + rest;
      forall i | 0 <= i <= |r| ensures !StartsWith(r[i..], pat) {
        if i == 0 {
          assert r[0] == c && pat[0] != c;
        } else {
          assert r[i..] == rest[i - 1..];
        }
      }
    } else {
      ReplaceLeavesNoToken(s[1..], pat, c);
      var rest := Replace(s[1..], pat, [c]);
      assert r == [s[0]] + rest;
      forall i | 0 <= i <= |r| ensures !StartsWith(r[i..], pat) {
        if i == 0 && StartsWith(r, pat) {
          var w := pat[1..];
          assert rest[..|w|] == r[1..|pat|];
          ReplaceKeepsLiteralPrefix(s[1..], pat, c, w);
          assert false;
        } else if i > 0 {
          assert r[i..] == rest[i - 1..];
        }
      }
    }
  }

  /** A prefix of the output that avoids the replacement character was copied from the input. */
  lemma {:induction false} ReplaceKeepsLiteralPrefix(s: string, pat: string, c: char, w: string)
    requires pat != []
    requires c !in w
    requires StartsWith(Replace(s, pat, [c]), w)
    ensures StartsWith(s, w)
    decreases |w|
  {
    if w != [] {
      var r := Replace(s, pat, [c]);
      assert r != [] && r[0] == w[0] && w[0] != c;
      assert s != [] && !StartsWith(s, pat);
      var rest := Replace(s[1..], pat, [c]);
      assert r == [s[0]] + rest;
      assert rest[..|w| - 1] == r[1..|w|] == w[1..];
      ReplaceKeepsLiteralPrefix(s[1..], pat, c, w[1..]);
      assert s[..|w|] == [s[0]] + s[1..][..|w| - 1];
    }
  }

  /**
   * Python's slice `s[0:stop]`, where a missing stop means the end and a
   * negative one counts back from the end. The result is always a prefix of `s`.
   */
  function Slice(s: string, stop: Option<int>): (r: string)
    ensures r <= s
    ensures stop.None? ==> r == s
    ensures stop.Some? && 0 <= stop.value ==> |r| == if stop.value < |s| then stop.value else |s|
    ensures stop.Some? && stop.value < 0 ==> |r| == if |s| + stop.value < 0 then 0 else |s| + stop.value
  {
    match stop
    case None => s
    case Some(n) =>
      if 0 <= n then (if n < |s| then s[..n] else s)
      else (if |s| + n < 0 then [] else s[..|s| + n])
  }

  /** ASCII `lower()` of one byte. */
  function LowerChar(c: char): char {
    if 'A' <= c <= 'Z' then (c as int + 32) as char else c
  }

  /** `s.lower()` on ASCII text. */
  function Lower(s: string): (r: string)
    ensures |r| == |s|
    ensures forall i :: 0 <= i < |s| ==> r[i] == LowerChar(s[i])
  {
    seq(|s|, i requires 0 <= i < |s| => LowerChar(s[i]))
  }

  /** ASCII `upper()` of one byte. */
  function UpperChar(c: char): char {
    if 'a' <= c <= 'z' then (c as int - 32) as char else c
  }

  /** Exactly a lower-case letter and its capital lower to that letter. */
  lemma LowerCharIs(c: char, l: char)
    requires 'a' <= l <= 'z'
    ensures LowerChar(c) == l <==> c == l || c == UpperChar(l)
  {
  }

  /**
   * `s.lower() == t` for a word `t` of lower-case letters holds exactly when
   * `s` spells `t` with each letter in either case.
   */
  lemma LowerMatches(s: string, t: string)
    requires forall i :: 0 <= i < |t| ==> 'a' <= t[i] <= 'z'
    ensures Lower(s) == t <==> |s| == |t| && forall i :: 0 <= i < |s| ==> s[i] == t[i] || s[i] == UpperChar(t[i])
  {
    if |s| == |t| {
      forall i | 0 <= i < |s| ensures LowerChar(s[i]) == t[i] <==> s[i] == t[i] || s[i] == UpperChar(t[i]) {
        LowerCharIs(s[i], t[i]);
      }
      if forall i :: 0 <= i < |s| ==> s[i] == t[i] || s[i] == UpperChar(t[i]) {
        assert forall i :: 0 <= i < |s| ==> Lower(s)[i] == t[i];
      }
    }
  }
}
