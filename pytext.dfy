/** Python's str operations as the crawl scripts use them: split, strip,
    replace, isdigit, int() and str() of an integer. Strings are sequences of
    Unicode scalar values, as Python's str is. */
module PyText {

  datatype Option<T> = None | Some(value: T) {
    function GetOr(default: T): T {
      match this
      case Some(v) => v
      case None => default
    }
  }

  /** `pat` occurs in `s` starting at position `i`. */
  predicate OccursAt(s: string, pat: string, i: nat) {
    i + |pat| <= |s| && s[i..i + |pat|] == pat
  }

  /** Python's `pat in s`. */
  predicate Contains(s: string, pat: string) {
    exists i: nat :: i <= |s| && OccursAt(s, pat, i)
  }

  lemma ContainsChar(s: string, c: char)
    ensures Contains(s, [c]) <==> c in s
  {
    if c in s {
      var i :| 0 <= i < |s| && s[i] == c;
      assert OccursAt(s, [c], i);
    }
    if Contains(s, [c]) {
      var i: nat :| i <= |s| && OccursAt(s, [c], i);
      assert s[i..i + 1] == [c];
      assert s[i] == c;
    }
  }

  /** The first position at or after `from` where `pat` occurs (str.find). */
  function FindFrom(s: string, pat: string, from: nat): (r: Option<nat>)
    requires from <= |s|
    ensures r.Some? ==> from <= r.value && OccursAt(s, pat, r.value)
    ensures forall j: nat :: from <= j && (r.None? || j < r.value) ==> !OccursAt(s, pat, j)
    decreases |s| - from
  {
    if OccursAt(s, pat, from) then Some(from)
    else if from == |s| then None
    else FindFrom(s, pat, from + 1)
  }

  function Find(s: string, pat: string): (r: Option<nat>)
    ensures r.Some? ==> OccursAt(s, pat, r.value)
    ensures r.Some? ==> forall j: nat :: j < r.value ==> !OccursAt(s, pat, j)
    ensures r.None? <==> !Contains(s, pat)
  {
    FindFrom(s, pat, 0)
  }

  /** An occurrence inside a prefix of `s` is an occurrence in `s`. */
  lemma OccursInPrefix(s: string, pat: string, n: nat, j: nat)
    requires n <= |s| && OccursAt(s[..n], pat, j)
    ensures OccursAt(s, pat, j)
  {
    assert s[..n][j..j + |pat|] == s[j..j + |pat|];
  }

  /** An occurrence inside a suffix of `s` is an occurrence in `s`. */
  lemma OccursInSuffix(s: string, pat: string, n: nat, j: nat)
    requires n <= |s| && OccursAt(s[n..], pat, j)
    ensures OccursAt(s, pat, n + j)
  {
    assert s[n..][j..j + |pat|] == s[n + j..n + j + |pat|];
  }

  /** Python's `s.split(sep)` for a non-empty separator: the pieces between
      non-overlapping occurrences found from left to right. */
  function Split(s: string, sep: string): (parts: seq<string>)
    requires sep != []
    ensures |parts| >= 1
    ensures forall k :: 0 <= k < |parts| ==> !Contains(parts[k], sep)
    decreases |s|
  {
    match Find(s, sep)
    case None => [s]
    case Some(i) =>
      var head := s[..i];
      assert !Contains(head, sep) by {
        forall j: nat | OccursAt(head, sep, j) ensures false {
          OccursInPrefix(s, sep, i, j);
        }
      }
      [head] + Split(s[i + |sep|..], sep)
  }

  /** A string that holds the separator splits into at least two pieces. */
  lemma SplitFound(s: string, sep: string)
    requires sep != [] && Contains(s, sep)
    ensures |Split(s, sep)| >= 2
  {
  }

  /** Python's `sep.join(parts)`. */
  function Join(parts: seq<string>, sep: string): string {
    if |parts| == 0 then ""
    else if |parts| == 1 then parts[0]
    else parts[0] + sep + Join(parts[1..], sep)
  }

  /** Splitting and joining again gives back the original text. */
  lemma {:induction false} JoinSplit(s: string, sep: string)
    requires sep != []
    ensures Join(Split(s, sep), sep) == s
    decreases |s|
  {
    match Find(s, sep)
    case None =>
    case Some(i) =>
      var rest := s[i + |sep|..];
      var parts := Split(s, sep);
      assert parts == [s[..i]] + Split(rest, sep);
      assert parts[1..] == Split(rest, sep);
      JoinSplit(rest, sep);
      calc {
        Join(parts, sep);
        parts[0] + sep + Join(parts[1..], sep);
        s[..i] + sep + rest;
        { assert s[i..i + |sep|] == sep; }
        s;
      }
  }

  /** `s.split(sep)[0]`: the text before the first occurrence. */
  function FirstPart(s: string, sep: string): (r: string)
    requires sep != []
    ensures !Contains(r, sep)
    ensures |r| <= |s| && r == s[..|r|]
    ensures Contains(s, sep) ==> OccursAt(s, sep, |r|)
    ensures Find(s, sep).Some? ==> |r| == Find(s, sep).value
    ensures Find(s, sep).None? ==> r == s
  {
    match Find(s, sep)
    case None => s
    case Some(i) => assert Split(s, sep)[0] == s[..i]; s[..i]
  }

  /** Splitting at the first `c` of a text gives the text before it, then
      the first piece of what follows it. */
  lemma SplitAfterFirst(a: string, c: char, b: string)
    requires c !in a
    ensures |Split(a + [c] + b, [c])| >= 2
    ensures Split(a + [c] + b, [c])[0] == a
    ensures Split(a + [c] + b, [c])[1] == FirstPart(b, [c])
  {
    var s := a + [c] + b;
    assert s[|a|..|a| + 1] == [c];
    assert OccursAt(s, [c], |a|);
    forall j: nat | j < |a| ensures !OccursAt(s, [c], j) {
      assert s[j] == a[j];
    }
    assert Find(s, [c]) == Some(|a|);
    assert s[..|a|] == a && s[|a| + 1..] == b;
    assert Split(s, [c]) == [a] + Split(b, [c]);
  }

  /** `r` is the text after the last occurrence of `sep` in `s`, or all
      of `s` when `sep` does not occur. */
  predicate AfterLast(s: string, sep: string, r: string) {
    |r| <= |s| && r == s[|s| - |r|..]
    && (Find(s, sep).None? ==> r == s)
    && (Find(s, sep).Some? ==> |r| + |sep| <= |s| && OccursAt(s, sep, |s| - |r| - |sep|))
  }

  /** `s.split(sep)[-1]`: the text after the last split point. */
  function LastPart(s: string, sep: string): (r: string)
    requires sep != []
    ensures Find(r, sep).None?
    ensures AfterLast(s, sep, r)
    decreases |s|
  {
    match Find(s, sep)
    case None => s
    case Some(i) =>
      var rest := s[i + |sep|..];
      var tail := LastPart(rest, sep);
      LastPartStep(s, sep, i, tail);
      tail
  }

  /** The piece after the last occurrence in the rest of the text is the
      piece after the last occurrence in the whole text. */
  lemma LastPartStep(s: string, sep: string, i: nat, r: string)
    requires sep != [] && Find(s, sep) == Some(i)
    requires AfterLast(s[i + |sep|..], sep, r)
    ensures AfterLast(s, sep, r)
  {
    SuffixStep(s, sep, i, r, Find(s[i + |sep|..], sep).Some?);
  }

  lemma SuffixStep(s: string, sep: string, i: nat, r: string, found: bool)
    requires sep != [] && OccursAt(s, sep, i)
    requires |r| <= |s| - i - |sep| && r == s[i + |sep|..][|s| - i - |sep| - |r|..]
    requires found ==>
      |r| + |sep| <= |s| - i - |sep| && OccursAt(s[i + |sep|..], sep, |s| - i - |sep| - |r| - |sep|)
    requires !found ==> r == s[i + |sep|..]
    ensures |r| + |sep| <= |s| && r == s[|s| - |r|..] && OccursAt(s, sep, |s| - |r| - |sep|)
  {
    SuffixOfSuffix(s, i + |sep|, r);
    if found {
      OccursInSuffix(s, sep, i + |sep|, |s| - i - |sep| - |r| - |sep|);
    }
  }

  /** `sep` never overlaps itself: no proper suffix of it is also a prefix. */
  predicate Borderless(sep: string) {
    forall k :: 0 < k < |sep| ==> sep[k..] != sep[..|sep| - k]
  }

  /** For a separator that cannot overlap itself, a separator-free suffix
      right after an occurrence is unique, so `AfterLast` pins down
      `split(sep)[-1]`. */
  lemma AfterLastUnique(s: string, sep: string, r1: string, r2: string)
    requires sep != [] && Borderless(sep)
    requires !Contains(r1, sep) && AfterLast(s, sep, r1)
    requires !Contains(r2, sep) && AfterLast(s, sep, r2)
    ensures r1 == r2
  {
    if Find(s, sep).Some? && |r1| != |r2| {
      if |r1| < |r2| {
        SuffixOccurrence(s, sep, r1, r2);
      } else {
        SuffixOccurrence(s, sep, r2, r1);
      }
    }
  }

  /** A shorter suffix after an occurrence of a borderless separator puts
      that occurrence inside the longer one. */
  lemma SuffixOccurrence(s: string, sep: string, short: string, long: string)
    requires sep != [] && Borderless(sep) && |short| < |long|
    requires |short| + |sep| <= |s| && OccursAt(s, sep, |s| - |short| - |sep|)
    requires |long| + |sep| <= |s| && OccursAt(s, sep, |s| - |long| - |sep|)
    requires long == s[|s| - |long|..]
    ensures Contains(long, sep)
  {
    var p1 := |s| - |short| - |sep|;
    var p2 := |s| - |long| - |sep|;
    if p1 < p2 + |sep| {
      OverlapBorder(s, sep, p2, p1);
      assert false;
    } else {
      var j: nat := p1 - p2 - |sep|;
      assert long[j..j + |sep|] == s[p1..p1 + |sep|];
      assert OccursAt(long, sep, j);
    }
  }

  /** Two overlapping occurrences of `sep` give it a border. */
  lemma OverlapBorder(s: string, sep: string, i: nat, j: nat)
    requires i < j < i + |sep| && OccursAt(s, sep, i) && OccursAt(s, sep, j)
    ensures sep[j - i..] == sep[..|sep| - (j - i)]
  {
    assert sep[j - i..] == s[j..i + |sep|] == sep[..|sep| - (j - i)];
  }

  /** A separator whose last character occurs nowhere else in it cannot
      overlap itself. */
  lemma LastCharOnce(sep: string)
    requires sep != [] && sep[|sep| - 1] !in sep[..|sep| - 1]
    ensures Borderless(sep)
  {
    forall k | 0 < k < |sep| ensures sep[k..] != sep[..|sep| - k] {
      assert sep[k..][|sep| - k - 1] == sep[|sep| - 1];
      assert sep[|sep| - k - 1] in sep[..|sep| - 1];
    }
  }

  /** With a borderless separator, the contract of `LastPart` determines it:
      any separator-free suffix right after an occurrence is the last part. */
  lemma LastPartExact(s: string, sep: string, r: string)
    requires sep != [] && Borderless(sep)
    requires !Contains(r, sep) && AfterLast(s, sep, r)
    ensures r == LastPart(s, sep)
  {
    AfterLastUnique(s, sep, r, LastPart(s, sep));
  }

  lemma SuffixOfSuffix(s: string, n: nat, r: string)
    requires n <= |s| && |r| <= |s| - n && r == s[n..][|s| - n - |r|..]
    ensures r == s[|s| - |r|..]
  {
    assert s[n..][|s| - n - |r|..] == s[|s| - |r|..];
  }

  /** `split(c)[-1]` is what follows the last `c`, whatever comes before. */
  lemma LastPartAfterChar(a: string, c: char, v: string)
    requires c !in v
    ensures LastPart(a + [c] + v, [c]) == v
  {
    var s := a + [c] + v;
    var r := LastPart(s, [c]);
    assert s[|a|..|a| + 1] == [c];
    assert OccursAt(s, [c], |a|);
    assert s[|s| - |r| - 1] == c;
    ContainsChar(r, c);
    assert r == s[|s| - |v|..] == v;
  }

  /** When the tag occurs exactly once, right after `p`, the last split
      piece is everything after it. */
  lemma LastPartAfterOnly(p: string, tag: string, rest: string)
    requires tag != []
    requires forall j: nat :: OccursAt(p + tag + rest, tag, j) ==> j == |p|
    ensures LastPart(p + tag + rest, tag) == rest
  {
    var s := p + tag + rest;
    assert s[|p|..|p| + |tag|] == tag;
    assert OccursAt(s, tag, |p|);
    assert Find(s, tag) == Some(|p|);
    assert s[|p| + |tag|..] == rest;
    forall j: nat | OccursAt(rest, tag, j) ensures false {
      OccursInSuffix(s, tag, |p| + |tag|, j);
    }
  }

  /** Cutting at a one-character separator that `v` lacks gives back `v`
      when the separator, or the end of the text, follows it. */
  lemma FirstPartBefore(v: string, c: char, tail: string)
    requires c !in v
    requires tail == [] || tail[0] == c
    ensures FirstPart(v + tail, [c]) == v
  {
    var s := v + tail;
    ContainsChar(v, c);
    if tail == [] {
      assert s == v;
    } else {
      assert s[|v|..|v| + 1] == [c];
      assert OccursAt(s, [c], |v|);
      forall j: nat | j < |v| ensures !OccursAt(s, [c], j) {
        assert s[j] == v[j] && s[j..j + 1] == [s[j]];
      }
      assert Find(s, [c]) == Some(|v|);
      assert s[..|v|] == v;
    }
  }

  /** A cut piece holds only characters of the text it was cut from. */
  lemma FirstPartChars(s: string, sep: string)
    requires sep != []
    ensures forall c :: c in FirstPart(s, sep) ==> c in s
  {
    var r := FirstPart(s, sep);
    assert r == s[..|r|];
  }

  lemma LastPartChars(s: string, sep: string)
    requires sep != []
    ensures forall c :: c in LastPart(s, sep) ==> c in s
  {
    var r := LastPart(s, sep);
    assert r == s[|s| - |r|..];
  }

  /** Python's `s.replace(pat, repl)` for a non-empty `pat`. */
  function Replace(s: string, pat: string, repl: string): (r: string)
    requires pat != []
    ensures !Contains(s, pat) ==> r == s
  {
    Join(Split(s, pat), repl)
  }

  /** Replacing a pattern that occurs once, right after `a`, puts the
      replacement in its place and leaves the rest alone. */
  lemma ReplaceOnly(a: string, pat: string, b: string, repl: string)
    requires pat != []
    requires forall j: nat :: OccursAt(a + pat + b, pat, j) ==> j == |a|
    ensures Replace(a + pat + b, pat, repl) == a + repl + b
  {
    var s := a + pat + b;
    assert s[|a|..|a| + |pat|] == pat;
    assert OccursAt(s, pat, |a|);
    assert Find(s, pat) == Some(|a|);
    assert s[..|a|] == a && s[|a| + |pat|..] == b;
    forall j: nat | OccursAt(b, pat, j) ensures false {
      OccursInSuffix(s, pat, |a| + |pat|, j);
    }
    assert Split(b, pat) == [b];
    assert Split(s, pat) == [a, b];
    assert Join([a, b], repl) == a + repl + Join([b], repl);
  }

  /** The characters str.isspace accepts, which str.strip() removes. */
  predicate IsSpace(c: char) {
    c == ' ' || ('\t' <= c <= '\r') || ('\U{1C}' <= c <= '\U{1F}')
    || c == '\U{85}' || c == '\U{A0}' || c == '\U{1680}'
    || ('\U{2000}' <= c <= '\U{200A}') || c == '\U{2028}' || c == '\U{2029}'
    || c == '\U{202F}' || c == '\U{205F}' || c == '\U{3000}'
  }

  /** Every character of `t` is white space. */
  predicate AllSpace(t: string) {
    forall k :: 0 <= k < |t| ==> IsSpace(t[k])
  }

  lemma AllSpaceAppend(a: string, b: string)
    requires AllSpace(a) && AllSpace(b)
    ensures AllSpace(a + b)
  {
    forall k | |a| <= k < |a + b| ensures IsSpace((a + b)[k]) {
      assert (a + b)[k] == b[k - |a|];
    }
  }

  /** `r` is `s` without its leading white space: a suffix of `s` after
      only white space, and not itself starting with white space. */
  predicate LeftStripped(s: string, r: string) {
    |r| <= |s| && r == s[|s| - |r|..] && AllSpace(s[..|s| - |r|]) && (r == [] || !IsSpace(r[0]))
  }

  /** `r` is `s` without its trailing white space. */
  predicate RightStripped(s: string, r: string) {
    |r| <= |s| && r == s[..|r|] && AllSpace(s[|r|..]) && (r == [] || !IsSpace(r[|r| - 1]))
  }

  /** `s.lstrip()`: the longest suffix that does not start with white space. */
  function StripLeft(s: string): (r: string)
    ensures LeftStripped(s, r)
  {
    if |s| > 0 && IsSpace(s[0]) then
      var r := StripLeft(s[1..]);
      assert s[..|s| - |r|] == [s[0]] + s[1..][..|s| - 1 - |r|];
      r
    else s
  }

  /** `s.rstrip()`: the longest prefix that does not end with white space. */
  function StripRight(s: string): (r: string)
    ensures RightStripped(s, r)
  {
    if |s| > 0 && IsSpace(s[|s| - 1]) then
      var r := StripRight(s[..|s| - 1]);
      assert s[|r|..] == s[..|s| - 1][|r|..] + [s[|s| - 1]];
      r
    else s
  }

  /** `r` is a slice of `s` with only white space before and after it. */
  predicate SpaceAround(s: string, r: string) {
    exists i :: 0 <= i <= |s| - |r| && r == s[i..i + |r|] && AllSpace(s[..i]) && AllSpace(s[i + |r|..])
  }

  /** `s.strip()`: the text between the leading and the trailing white
      space. */
  function Strip(s: string): (r: string)
    ensures r == [] || (!IsSpace(r[0]) && !IsSpace(r[|r| - 1]))
    ensures SpaceAround(s, r)
  {
    var l := StripLeft(s);
    var r := StripRight(l);
    StripSlice(s, l, r);
    r
  }

  /** Cutting white space from the left and then from the right leaves a
      slice of the text with only white space around it. */
  lemma StripSlice(s: string, l: string, r: string)
    requires LeftStripped(s, l) && RightStripped(l, r)
    ensures r == [] || (!IsSpace(r[0]) && !IsSpace(r[|r| - 1]))
    ensures SpaceAround(s, r)
  {
    var i := |s| - |l|;
    assert r != [] ==> r[0] == l[0];
    assert r == s[i..i + |r|];
    assert s[i + |r|..] == l[|r|..];
  }

  /** The stripped text holds only characters of the text. */
  lemma StripChars(s: string)
    ensures forall c :: c in Strip(s) ==> c in s
  {
    var l := StripLeft(s);
    assert Strip(s) == StripRight(l);
    InPrefix(l, |StripRight(l)|);
    InSuffix(s, |s| - |l|);
  }

  lemma InPrefix(s: string, n: nat)
    requires n <= |s|
    ensures forall c :: c in s[..n] ==> c in s
  {
    forall c | c in s[..n] ensures c in s {
      var i :| 0 <= i < n && s[..n][i] == c;
      assert s[i] == c;
    }
  }

  lemma InSuffix(s: string, n: nat)
    requires n <= |s|
    ensures forall c :: c in s[n..] ==> c in s
  {
    forall c | c in s[n..] ensures c in s {
      var i :| 0 <= i < |s| - n && s[n..][i] == c;
      assert s[n + i] == c;
    }
  }

  /** lstrip() removes exactly the white space put in front. */
  lemma {:induction false} StripLeftPadded(left: string, u: string)
    requires AllSpace(left)
    requires u == [] || !IsSpace(u[0])
    ensures StripLeft(left + u) == u
    decreases |left|
  {
    if left == [] {
      assert left + u == u;
    } else {
      assert (left + u)[0] == left[0];
      assert (left + u)[1..] == left[1..] + u;
      var shorter := left[1..];
      assert AllSpace(shorter) by {
        forall k | 0 <= k < |shorter| ensures IsSpace(shorter[k]) {
          assert shorter[k] == left[k + 1];
        }
      }
      StripLeftPadded(shorter, u);
    }
  }

  /** rstrip() removes exactly the white space put behind. */
  lemma {:induction false} StripRightPadded(u: string, right: string)
    requires AllSpace(right)
    requires u == [] || !IsSpace(u[|u| - 1])
    ensures StripRight(u + right) == u
    decreases |right|
  {
    if right == [] {
      assert u + right == u;
    } else {
      var n := |u + right|;
      assert (u + right)[n - 1] == right[|right| - 1];
      assert (u + right)[..n - 1] == u + right[..|right| - 1];
      var shorter := right[..|right| - 1];
      assert AllSpace(shorter) by {
        forall k | 0 <= k < |shorter| ensures IsSpace(shorter[k]) {
          assert shorter[k] == right[k];
        }
      }
      StripRightPadded(u, shorter);
    }
  }

  /** Text with non-blank ends, padded with white space on either side,
      strips back to itself. */
  lemma StripPadded(left: string, t: string, right: string)
    requires AllSpace(left) && AllSpace(right)
    requires |t| > 0 && !IsSpace(t[0]) && !IsSpace(t[|t| - 1])
    ensures Strip(left + t + right) == t
  {
    assert left + t + right == left + (t + right);
    assert (t + right)[0] == t[0];
    StripLeftPadded(left, t + right);
    StripRightPadded(t, right);
  }

  /** Text without white space at either end is left as it is. */
  lemma StripStripped(s: string)
    requires s == [] || (!IsSpace(s[0]) && !IsSpace(s[|s| - 1]))
    ensures Strip(s) == s
  {
    if s != [] {
      assert [] + s + [] == s;
      StripPadded([], s, []);
    }
  }

  lemma StripIdempotent(s: string)
    ensures Strip(Strip(s)) == Strip(s)
  {
    var t := Strip(s);
    assert t == [] || (!IsSpace(t[0]) && !IsSpace(t[|t| - 1]));
    StripStripped(t);
  }

  /** Decimal digits that int() accepts: ASCII and full-width. */
  predicate IsDecimalChar(c: char) {
    ('0' <= c <= '9') || ('\U{FF10}' <= c <= '\U{FF19}')
  }

  function DigitValue(c: char): (d: nat)
    requires IsDecimalChar(c)
    ensures d < 10
    ensures '0' <= c <= '9' ==> d == c as int - '0' as int
    ensures '\U{FF10}' <= c <= '\U{FF19}' ==> d == c as int - '\U{FF10}' as int
  {
    if '0' <= c <= '9' then (c - '0') as nat else (c - '\U{FF10}') as nat
  }

  /** The digits str.isdigit accepts: the decimal digits and the
      superscripts one, two and three. */
  predicate IsDigitChar(c: char) {
    IsDecimalChar(c) || c == '\U{B9}' || c == '\U{B2}' || c == '\U{B3}'
  }

  /** `s.isdigit()`. */
  predicate IsDigit(s: string) {
    |s| > 0 && forall k :: 0 <= k < |s| ==> IsDigitChar(s[k])
  }

  predicate AllDecimal(s: string) {
    forall k :: 0 <= k < |s| ==> IsDecimalChar(s[k])
  }

  /** The value of a run of decimal digits, most significant first. */
  function DecimalValue(s: string): nat
    requires AllDecimal(s)
  {
    if s == [] then 0 else 10 * DecimalValue(s[..|s| - 1]) + DigitValue(s[|s| - 1])
  }

  /** What int() accepts once the white space is stripped: an optional
      sign followed by at least one decimal digit. */
  predicate Numeral(t: string) {
    (|t| > 0 && AllDecimal(t))
    || (|t| > 1 && (t[0] == '-' || t[0] == '+') && AllDecimal(t[1..]))
  }

  /** `int(s)` on a string: surrounding white space, an optional sign and at
      least one decimal digit; anything else raises ValueError (None here). */
  function ParseInt(s: string): (r: Option<int>)
    ensures r.Some? <==> Numeral(Strip(s))
    ensures r.Some? ==> exists k :: 0 <= k < |s| && IsDecimalChar(s[k])
  {
    var t := Strip(s);
    var r := ParseSigned(t);
    StripChars(s);
    assert r.Some? ==> t[|t| - 1] in s;
    r
  }

  /** An optional sign followed by at least one decimal digit. */
  function ParseSigned(t: string): (r: Option<int>)
    ensures r.Some? <==> Numeral(t)
    ensures |t| > 0 && AllDecimal(t) ==> r == Some(DecimalValue(t) as int)
    ensures |t| > 1 && t[0] == '-' && AllDecimal(t[1..]) ==> r == Some(-(DecimalValue(t[1..]) as int))
    ensures |t| > 1 && t[0] == '+' && AllDecimal(t[1..]) ==> r == Some(DecimalValue(t[1..]) as int)
  {
    if |t| > 0 && (t[0] == '-' || t[0] == '+') then
      var digits := t[1..];
      if |digits| > 0 && AllDecimal(digits) then
        Some(if t[0] == '-' then -(DecimalValue(digits) as int) else DecimalValue(digits) as int)
      else None
    else if |t| > 0 && AllDecimal(t) then Some(DecimalValue(t) as int)
    else None
  }

  /** int() of a numeral with white space around it reads the numeral. */
  lemma ParseIntPadded(left: string, t: string, right: string)
    requires AllSpace(left) && AllSpace(right) && Numeral(t)
    ensures ParseInt(left + t + right) == ParseSigned(t)
  {
    assert IsDecimalChar(t[|t| - 1]);
    assert IsDecimalChar(t[0]) || t[0] == '-' || t[0] == '+';
    StripPadded(left, t, right);
  }

  /** A character int() can accept: white space, a sign or a decimal digit. */
  predicate NumeralChar(c: char) {
    IsSpace(c) || c == '-' || c == '+' || IsDecimalChar(c)
  }

  lemma NumeralChars(t: string)
    requires Numeral(t)
    ensures forall k :: 0 <= k < |t| ==> NumeralChar(t[k])
  {
    if !AllDecimal(t) {
      forall k | 1 <= k < |t| ensures IsDecimalChar(t[k]) {
        assert t[k] == t[1..][k - 1];
      }
    }
  }

  /** Text with only white space around t has only t's characters and
      white space. */
  lemma SpaceAroundChars(s: string, t: string)
    requires SpaceAround(s, t)
    requires forall k :: 0 <= k < |t| ==> NumeralChar(t[k])
    ensures forall k :: 0 <= k < |s| ==> NumeralChar(s[k])
  {
    var i :| 0 <= i <= |s| - |t| && t == s[i..i + |t|] && AllSpace(s[..i]) && AllSpace(s[i + |t|..]);
    forall k | 0 <= k < |s| ensures NumeralChar(s[k]) {
      if k < i {
        assert s[..i][k] == s[k];
      } else if k < i + |t| {
        assert t[k - i] == s[k];
      } else {
        assert s[i + |t|..][k - i - |t|] == s[k];
      }
    }
  }

  /** int() accepts only text made of white space, signs and decimal digits. */
  lemma ParseIntChars(s: string)
    requires ParseInt(s).Some?
    ensures forall k :: 0 <= k < |s| ==> NumeralChar(s[k])
  {
    var t := Strip(s);
    NumeralChars(t);
    SpaceAroundChars(s, t);
  }

  /** `str(n)` for a natural number. */
  function NatToString(n: nat): (s: string)
    ensures |s| > 0 && AllDecimal(s) && '0' <= s[0] <= '9'
    ensures forall k :: 0 <= k < |s| ==> '0' <= s[k] <= '9'
    ensures |s| > 1 ==> s[0] != '0'
  {
    if n < 10 then ['0' + n as char]
    else NatToString(n / 10) + ['0' + (n % 10) as char]
  }

  /** `str(i)` for an integer. */
  function IntToString(i: int): (s: string)
    ensures |s| > 0
  {
    if i < 0 then "-" + NatToString(-i) else NatToString(i)
  }

  lemma {:induction false} DecimalValueOfNatToString(n: nat)
    ensures DecimalValue(NatToString(n)) == n
  {
    if n >= 10 {
      DecimalValueOfNatToString(n / 10);
      var s := NatToString(n);
      assert s[..|s| - 1] == NatToString(n / 10);
    }
  }

  lemma ParseSignedDigits(n: nat)
    ensures ParseSigned(NatToString(n)) == Some(n)
    ensures ParseSigned("-" + NatToString(n)) == Some(-(n as int))
  {
    var digits := NatToString(n);
    DecimalValueOfNatToString(n);
    assert ("-" + digits)[1..] == digits;
  }

  /** str(i) is a numeral, and reading it gives i back. */
  lemma SignedToString(i: int)
    ensures Numeral(IntToString(i)) && ParseSigned(IntToString(i)) == Some(i)
  {
    var n: nat := if i < 0 then -i else i;
    ParseSignedDigits(n);
    if i < 0 {
      var s := IntToString(i);
      assert s == "-" + NatToString(n) && s[1..] == NatToString(n);
    }
  }

  /** int(str(i)) == i. */
  lemma ParseIntToString(i: int)
    ensures ParseInt(IntToString(i)) == Some(i)
  {
    var s := IntToString(i);
    SignedToString(i);
    assert [] + s + [] == s;
    ParseIntPadded([], s, []);
  }
}
