/**
 * The few Python `str` operations the backend relies on, over `seq<char>`.
 * `strip()` drops the characters for which Python's `str.isspace()` holds;
 * `lower()` is restricted to ASCII: only 'A'..'Z' are lowered.
 */
module PyText {

  datatype Option<+T> = None | Some(value: T) {
    /** Python's `x or default` for a possibly missing value */
    function GetOr(default: T): T {
      match this
      case Some(v) => v
      case None => default
    }
  }

  // ---------------------------------------------------------------------
  // Characters

  /** `c.isspace()`: the ASCII whitespace and separators, then the Unicode
      line and paragraph separators and space characters. */
  predicate IsSpace(c: char) {
    c == ' ' || '\t' <= c <= '\r' || '\U{1C}' <= c <= '\U{1F}'
    || c == '\U{85}' || c == '\U{A0}' || c == '\U{1680}' || '\U{2000}' <= c <= '\U{200A}'
    || c == '\U{2028}' || c == '\U{2029}' || c == '\U{202F}' || c == '\U{205F}' || c == '\U{3000}'
  }

  predicate IsUpper(c: char) {
    'A' <= c <= 'Z'
  }

  function LowerChar(c: char): char {
    if IsUpper(c) then (c as int + 32) as char else c
  }

  /** `s.lower()` on ASCII */
  function Lower(s: string): string {
    seq(|s|, i requires 0 <= i < |s| => LowerChar(s[i]))
  }

  predicate IsLower(s: string) {
    forall i :: 0 <= i < |s| ==> !IsUpper(s[i])
  }

  lemma LowerIsLower(s: string)
    ensures IsLower(Lower(s))
  {
  }

  /** Lowering changes no whitespace character and makes none. */
  lemma LowerCharSpace(c: char)
    ensures IsSpace(LowerChar(c)) == IsSpace(c)
  {
  }

  // ---------------------------------------------------------------------
  // strip()

  /** The first index at or after `i` that holds no whitespace (or `|s|`). */
  function SkipSpace(s: string, i: nat): (k: nat)
    requires i <= |s|
    ensures i <= k <= |s|
    ensures forall j :: i <= j < k ==> IsSpace(s[j])
    ensures k < |s| ==> !IsSpace(s[k])
    decreases |s| - i
  {
    if i < |s| && IsSpace(s[i]) then SkipSpace(s, i + 1) else i
  }

  /** The end of `s[lo..hi]` once its trailing whitespace is dropped. */
  function SkipSpaceBack(s: string, lo: nat, hi: nat): (k: nat)
    requires lo <= hi <= |s|
    ensures lo <= k <= hi
    ensures forall j :: k <= j < hi ==> IsSpace(s[j])
    ensures k > lo ==> !IsSpace(s[k - 1])
    decreases hi
  {
    if hi > lo && IsSpace(s[hi - 1]) then SkipSpaceBack(s, lo, hi - 1) else hi
  }

  /** Every character of `s` is whitespace. */
  predicate AllSpace(s: string) {
    forall i :: 0 <= i < |s| ==> IsSpace(s[i])
  }

  /** Neither end of `s` is whitespace. */
  predicate IsStripped(s: string) {
    |s| == 0 || (!IsSpace(s[0]) && !IsSpace(s[|s| - 1]))
  }

  function StripStart(s: string): nat
    ensures StripStart(s) <= |s|
  {
    SkipSpace(s, 0)
  }

  function StripEnd(s: string): nat
    ensures StripStart(s) <= StripEnd(s) <= |s|
  {
    SkipSpaceBack(s, StripStart(s), |s|)
  }

  /** `s.strip()`: the infix of `s` left once leading and trailing
      whitespace are dropped; empty when `s` is all whitespace. */
  function Strip(s: string): (r: string)
    ensures IsStripped(r)
    ensures StripStart(s) + |r| <= |s| && r == s[StripStart(s)..StripStart(s) + |r|]
    ensures AllSpace(s[..StripStart(s)]) && AllSpace(s[StripStart(s) + |r|..])
    ensures r == "" <==> forall i :: 0 <= i < |s| ==> IsSpace(s[i])
  {
    s[StripStart(s)..StripEnd(s)]
  }

  lemma {:induction false} InfixChars(s: string, a: nat, b: nat, c: char)
    requires a <= b <= |s| && c in s[a..b]
    ensures c in s
  {
    var k :| 0 <= k < b - a && s[a..b][k] == c;
    assert s[a + k] == c;
  }

  /** Every character of `Strip(s)` is a character of `s`. */
  lemma StripChars(s: string)
    ensures forall c :: c in Strip(s) ==> c in s
  {
    forall c | c in Strip(s) ensures c in s {
      InfixChars(s, StripStart(s), StripEnd(s), c);
    }
  }

  lemma {:induction false} SkipSpaceLower(s: string, i: nat)
    requires i <= |s|
    ensures SkipSpace(Lower(s), i) == SkipSpace(s, i)
    decreases |s| - i
  {
    if i < |s| {
      LowerCharSpace(s[i]);
      SkipSpaceLower(s, i + 1);
    }
  }

  lemma {:induction false} SkipSpaceBackLower(s: string, lo: nat, hi: nat)
    requires lo <= hi <= |s|
    ensures SkipSpaceBack(Lower(s), lo, hi) == SkipSpaceBack(s, lo, hi)
    decreases hi
  {
    if hi > lo {
      LowerCharSpace(s[hi - 1]);
      SkipSpaceBackLower(s, lo, hi - 1);
    }
  }

  /** Stripping and lowering commute, since lowering leaves whitespace alone. */
  lemma StripLower(s: string)
    ensures Strip(Lower(s)) == Lower(Strip(s))
  {
    SkipSpaceLower(s, 0);
    SkipSpaceBackLower(s, StripStart(s), |s|);
    LowerSlice(s, StripStart(s), StripEnd(s));
  }

  lemma LowerSlice(s: string, a: nat, b: nat)
    requires a <= b <= |s|
    ensures Lower(s)[a..b] == Lower(s[a..b])
  {
  }

  /** `Strip(s)` is the one infix of `s` with no whitespace at either end
      and only whitespace around it. */
  lemma StripUnique(s: string, a: nat, r: string)
    requires a + |r| <= |s| && r == s[a..a + |r|] && IsStripped(r)
    requires AllSpace(s[..a]) && AllSpace(s[a + |r|..])
    ensures Strip(s) == r
  {
    if r != "" {
      var r2 := Strip(s);
      var a2 := StripStart(s);
      assert s[a] == r[0] && !IsSpace(s[a]);
      assert r2 != "";
      assert s[a2] == r2[0] && !IsSpace(s[a2]);
      forall j | 0 <= j < a2 ensures IsSpace(s[j]) {
        assert s[..a2][j] == s[j];
      }
      forall j | 0 <= j < a ensures IsSpace(s[j]) {
        assert s[..a][j] == s[j];
      }
      assert a2 <= a;
      assert a <= a2;
      var e, e2 := a + |r|, a + |r2|;
      assert s[e - 1] == r[|r| - 1] && !IsSpace(s[e - 1]);
      assert s[e2 - 1] == r2[|r2| - 1] && !IsSpace(s[e2 - 1]);
      forall j | e2 <= j < |s| ensures IsSpace(s[j]) {
        assert s[e2..][j - e2] == s[j];
      }
      forall j | e <= j < |s| ensures IsSpace(s[j]) {
        assert s[e..][j - e] == s[j];
      }
      assert e2 <= e;
      assert e <= e2;
    }
  }

  /** Dropping one leading whitespace character does not change the strip. */
  lemma StripDropSpace(s: string)
    requires |s| > 0 && IsSpace(s[0])
    ensures Strip(s[1..]) == Strip(s)
  {
    assert 1 <= StripStart(s);
    StripDropLeading(s, 1);
  }

  /** Dropping any part of the leading whitespace does not change the strip. */
  lemma StripDropLeading(s: string, k: nat)
    requires k <= StripStart(s)
    ensures Strip(s[k..]) == Strip(s)
  {
    var r, a := Strip(s), StripStart(s);
    DropSlices(s, k, a, a + |r|);
    AllSpaceDrop(s[..a], k);
    StripUnique(s[k..], a - k, r);
  }

  /** Slices of `s[k..]` are the slices of `s` shifted by `k`. */
  lemma DropSlices<T>(s: seq<T>, k: nat, a: nat, b: nat)
    requires k <= a <= b <= |s|
    ensures s[k..][a - k..b - k] == s[a..b] && s[k..][b - k..] == s[b..]
    ensures s[k..][..a - k] == s[..a][k..]
  {
  }

  lemma AllSpaceDrop(s: string, k: nat)
    requires k <= |s| && AllSpace(s)
    ensures AllSpace(s[k..])
  {
    forall i | 0 <= i < |s| - k ensures IsSpace(s[k..][i]) {
      assert s[k..][i] == s[k + i];
    }
  }

  /** What follows the stripped part of `s` strips to nothing. */
  lemma StripTail(s: string, k: nat)
    requires StripEnd(s) <= k <= |s|
    ensures Strip(s[k..]) == ""
  {
    forall i | 0 <= i < |s| - k ensures IsSpace(s[k..][i]) {
      assert s[k..][i] == s[k + i];
    }
  }

  // ---------------------------------------------------------------------
  // `p in s`, `s.find(p)`, `s.startswith(p)`

  predicate OccursAt(s: string, p: string, j: nat) {
    j + |p| <= |s| && s[j..j + |p|] == p
  }

  /** The first index at or after `i` where `p` occurs in `s`, if any. */
  function FindFrom(s: string, p: string, i: nat): (r: Option<nat>)
    ensures r.Some? ==> i <= r.value && OccursAt(s, p, r.value)
    ensures r.Some? ==> forall j :: i <= j < r.value ==> !OccursAt(s, p, j)
    ensures r.None? ==> forall j :: i <= j ==> !OccursAt(s, p, j)
    decreases |s| - i
  {
    if i + |p| > |s| then None
    else if OccursAt(s, p, i) then Some(i)
    else FindFrom(s, p, i + 1)
  }

  /** `s.find(p)`: the first index at which `p` occurs in `s`, if any. */
  function Find(s: string, p: string): (r: Option<nat>)
    ensures r.Some? ==> OccursAt(s, p, r.value)
    ensures r.Some? ==> forall j :: 0 <= j < r.value ==> !OccursAt(s, p, j)
    ensures r.None? ==> forall j :: 0 <= j ==> !OccursAt(s, p, j)
  {
    FindFrom(s, p, 0)
  }

  /** `p in s` */
  predicate Contains(s: string, p: string) {
    Find(s, p).Some?
  }

  lemma ContainsAt(s: string, p: string, j: nat)
    requires OccursAt(s, p, j)
    ensures Contains(s, p) && Find(s, p).value <= j
  {
  }

  /** Whoever contains `a + b` contains `a` and contains `b`. */
  lemma ContainsInfix(s: string, a: string, b: string)
    requires Contains(s, a + b)
    ensures Contains(s, a) && Contains(s, b)
  {
    var i := Find(s, a + b).value;
    assert s[i..i + |a|] == (a + b)[..|a|] == a;
    assert s[i + |a|..i + |a| + |b|] == (a + b)[|a|..] == b;
    assert OccursAt(s, a, i) && OccursAt(s, b, i + |a|);
    ContainsAt(s, a, i);
    ContainsAt(s, b, i + |a|);
  }

  lemma ContainsChar(s: string, c: char)
    requires c in s
    ensures Contains(s, [c])
  {
    var j :| 0 <= j < |s| && s[j] == c;
    assert s[j..j + 1] == [c];
    assert OccursAt(s, [c], j);
    ContainsAt(s, [c], j);
  }

  /** The first `c` of `s` is at `k` when `s[k]` is `c` and no earlier
      character is. */
  lemma FindCharAt(s: string, c: char, k: nat)
    requires k < |s| && s[k] == c
    requires forall j :: 0 <= j < k ==> s[j] != c
    ensures Find(s, [c]) == Some(k)
  {
    assert s[k..k + 1] == [c];
    ContainsAt(s, [c], k);
    var f := Find(s, [c]).value;
    assert s[f..f + 1][0] == s[f];
  }

  /** The first occurrence of `p` is at `k` when `p` occurs there and
      nowhere earlier. */
  lemma FindAt(s: string, p: string, k: nat)
    requires OccursAt(s, p, k)
    requires forall j :: 0 <= j < k ==> !OccursAt(s, p, j)
    ensures Find(s, p) == Some(k)
  {
    ContainsAt(s, p, k);
  }

  /** `s.split(p, 1)[1]`: what follows the first occurrence of `p`. */
  function AfterFirst(s: string, p: string): (r: string)
    requires Contains(s, p)
    ensures |r| + |p| <= |s| && r == s[|s| - |r|..]
    ensures OccursAt(s, p, |s| - |r| - |p|)
    ensures forall j :: 0 <= j < |s| - |r| - |p| ==> !OccursAt(s, p, j)
  {
    s[Find(s, p).value + |p|..]
  }

  lemma AfterFirstChars(s: string, p: string)
    requires Contains(s, p)
    ensures forall c :: c in AfterFirst(s, p) ==> c in s
  {
    var r := AfterFirst(s, p);
    forall c | c in r ensures c in s {
      InfixChars(s, |s| - |r|, |s|, c);
    }
  }

  predicate StartsWith(s: string, p: string) {
    |p| <= |s| && s[..|p|] == p
  }

  predicate EndsWith(s: string, p: string) {
    |p| <= |s| && s[|s| - |p|..] == p
  }

  // ---------------------------------------------------------------------
  // `s.replace(p, '')`

  /** `s.replace(p, '')`: occurrences of `p` are removed left to right,
      never overlapping, and the scan resumes after each removed one. */
  function RemoveAll(s: string, p: string): (r: string)
    requires |p| > 0
    ensures |r| <= |s|
    ensures forall c :: c in r ==> c in s
    ensures Find(s, p).None? ==> r == s
    decreases |s|
  {
    if |s| < |p| then s
    else if s[..|p|] == p then
      assert OccursAt(s, p, 0);
      ContainsAt(s, p, 0);
      RemoveAll(s[|p|..], p)
    else
      OccursShift(s, p);
      [s[0]] + RemoveAll(s[1..], p)
  }

  /** The occurrences in `s[1..]` are those in `s` after index 0, one
      place earlier. */
  lemma OccursShift(s: string, p: string)
    requires |s| > 0
    ensures forall j :: 0 <= j ==> (OccursAt(s[1..], p, j) <==> OccursAt(s, p, j + 1))
  {
    forall j | 0 <= j ensures OccursAt(s[1..], p, j) <==> OccursAt(s, p, j + 1) {
      if j + |p| <= |s| - 1 {
        assert s[1..][j..j + |p|] == s[j + 1..j + 1 + |p|];
      }
    }
  }

  /** `replace(p, '')` scans left to right: everything before the first
      occurrence of `p` is kept, that occurrence is dropped, and the scan
      resumes right after it. */
  lemma RemoveAllFirst(s: string, p: string, k: nat)
    requires |p| > 0 && Find(s, p) == Some(k)
    ensures RemoveAll(s, p) == s[..k] + RemoveAll(s[k + |p|..], p)
  {
    RemoveAllFrom(s, p, 0, k);
    assert s[0..] == s && s[0..k] == s[..k];
  }

  /** From index `i`, a stretch free of `p` up to an occurrence at `k` is
      kept as it is and the occurrence dropped. */
  lemma {:induction false} RemoveAllFrom(s: string, p: string, i: nat, k: nat)
    requires |p| > 0 && i <= k && OccursAt(s, p, k)
    requires forall j :: i <= j < k ==> !OccursAt(s, p, j)
    ensures RemoveAll(s[i..], p) == s[i..k] + RemoveAll(s[k + |p|..], p)
    decreases k - i
  {
    if i == k {
      RemoveAllDrop(s, p, k);
    } else {
      RemoveAllKeep(s, p, i);
      RemoveAllFrom(s, p, i + 1, k);
      SliceCons(s, i, k);
      ConsAppend(s[i], s[i + 1..k], RemoveAll(s[k + |p|..], p),
        RemoveAll(s[i..], p), RemoveAll(s[i + 1..], p), s[i..k]);
    }
  }

  lemma SliceCons<T>(s: seq<T>, i: nat, k: nat)
    requires i < k <= |s|
    ensures s[i..k] == [s[i]] + s[i + 1..k]
  {
  }

  lemma ConsAppend<T>(x: T, a: seq<T>, c: seq<T>, whole: seq<T>, tail: seq<T>, b: seq<T>)
    requires whole == [x] + tail && tail == a + c && b == [x] + a
    ensures whole == b + c
  {
  }

  /** An occurrence at `k` is dropped whole. */
  lemma RemoveAllDrop(s: string, p: string, k: nat)
    requires |p| > 0 && OccursAt(s, p, k)
    ensures RemoveAll(s[k..], p) == RemoveAll(s[k + |p|..], p)
  {
    assert s[k..][..|p|] == s[k..k + |p|];
    assert s[k..][|p|..] == s[k + |p|..];
  }

  /** A character where no occurrence starts is kept. */
  lemma RemoveAllKeep(s: string, p: string, i: nat)
    requires |p| > 0 && i + |p| <= |s| && !OccursAt(s, p, i)
    ensures RemoveAll(s[i..], p) == [s[i]] + RemoveAll(s[i + 1..], p)
  {
    assert s[i..][..|p|] == s[i..i + |p|];
    assert s[i..][1..] == s[i + 1..];
  }

  /** Removing a one-character pattern drops every copy of that character
      and keeps every other character. */
  lemma {:induction false} RemoveAllChar(s: string, c: char)
    ensures multiset(RemoveAll(s, [c])) == multiset(s)[c := 0]
    ensures c !in RemoveAll(s, [c])
    decreases |s|
  {
    if |s| >= 1 {
      RemoveAllChar(s[1..], c);
      assert s[1..] == s[|[c]|..];
      assert s == [s[0]] + s[1..];
    }
  }

  // ---------------------------------------------------------------------
  // `sep.join(parts)`

  function Join(parts: seq<string>, sep: string): string
    decreases |parts|
  {
    if |parts| == 0 then ""
    else if |parts| == 1 then parts[0]
    else Join(parts[..|parts| - 1], sep) + sep + parts[|parts| - 1]
  }

  /** Where part `k` begins in `Join(parts, sep)`. */
  function Offset(parts: seq<string>, sep: string, k: nat): nat
    requires k <= |parts|
  {
    if k == 0 then 0 else Offset(parts, sep, k - 1) + |parts[k - 1]| + |sep|
  }

  lemma {:induction false} OffsetPrefix(parts: seq<string>, sep: string, n: nat, k: nat)
    requires k <= n <= |parts|
    ensures Offset(parts[..n], sep, k) == Offset(parts, sep, k)
  {
    if k > 0 {
      OffsetPrefix(parts, sep, n, k - 1);
    }
  }

  lemma {:induction false} JoinLength(parts: seq<string>, sep: string)
    requires |parts| > 0
    ensures |Join(parts, sep)| == Offset(parts, sep, |parts| - 1) + |parts[|parts| - 1]|
    decreases |parts|
  {
    var n := |parts|;
    if n > 1 {
      JoinLength(parts[..n - 1], sep);
      OffsetPrefix(parts, sep, n - 1, n - 2);
    }
  }

  lemma ConcatSliceLeft(a: string, b: string, lo: nat, hi: nat)
    requires lo <= hi <= |a|
    ensures (a + b)[lo..hi] == a[lo..hi]
  {
  }

  lemma ConcatSliceRight(a: string, sep: string, b: string)
    ensures (a + (sep + b))[|a| + |sep|..|a| + |sep| + |b|] == b
    ensures (a + (sep + b))[|a|..|a| + |sep|] == sep
  {
  }

  /** Part `k` sits at `Offset(parts, sep, k)`, preceded by the separator
      when it is not the first. */
  lemma {:induction false} JoinAt(parts: seq<string>, sep: string, k: nat)
    requires k < |parts|
    ensures Offset(parts, sep, k) + |parts[k]| <= |Join(parts, sep)|
      && Join(parts, sep)[Offset(parts, sep, k)..Offset(parts, sep, k) + |parts[k]|] == parts[k]
    ensures k > 0 ==> (|sep| <= Offset(parts, sep, k)
      && Join(parts, sep)[Offset(parts, sep, k) - |sep|..Offset(parts, sep, k)] == sep)
    decreases |parts|
  {
    var n := |parts|;
    if k == n - 1 {
      JoinAtLast(parts, sep);
    } else {
      var init := parts[..n - 1];
      var ji := Join(init, sep);
      var tail := sep + parts[n - 1];
      assert Join(parts, sep) == ji + tail;
      var o := Offset(parts, sep, k);
      JoinAt(init, sep, k);
      OffsetPrefix(parts, sep, n - 1, k);
      ConcatSliceLeft(ji, tail, o, o + |parts[k]|);
      if k > 0 {
        ConcatSliceLeft(ji, tail, o - |sep|, o);
      }
    }
  }

  /** The last part closes the join, after the separator when it is not
      the only part. */
  lemma JoinAtLast(parts: seq<string>, sep: string)
    requires |parts| > 0
    ensures var k := |parts| - 1;
      Offset(parts, sep, k) + |parts[k]| <= |Join(parts, sep)|
      && Join(parts, sep)[Offset(parts, sep, k)..Offset(parts, sep, k) + |parts[k]|] == parts[k]
    ensures var k := |parts| - 1;
      k > 0 ==> (|sep| <= Offset(parts, sep, k)
      && Join(parts, sep)[Offset(parts, sep, k) - |sep|..Offset(parts, sep, k)] == sep)
  {
    var n := |parts|;
    JoinLength(parts, sep);
    if n > 1 {
      var init := parts[..n - 1];
      var ji := Join(init, sep);
      assert Join(parts, sep) == ji + (sep + parts[n - 1]);
      JoinLength(init, sep);
      OffsetPrefix(parts, sep, n - 1, n - 2);
      ConcatSliceRight(ji, sep, parts[n - 1]);
    }
  }

  // ---------------------------------------------------------------------
  // `str(n)` for a natural number

  function DigitChar(d: nat): char
    requires d < 10
  {
    ('0' as int + d) as char
  }

  /** `str(n)`: decimal digits, most significant first, no leading zero. */
  function NatToString(n: nat): (r: string)
    ensures |r| > 0 && (|r| > 1 ==> r[0] != '0')
    ensures forall i :: 0 <= i < |r| ==> '0' <= r[i] <= '9'
  {
    if n < 10 then [DigitChar(n)] else NatToString(n / 10) + [DigitChar(n % 10)]
  }

  /** Reads a string of decimal digits back as a number. */
  function ParseDecimal(s: string): nat
    requires forall i :: 0 <= i < |s| ==> '0' <= s[i] <= '9'
  {
    if s == [] then 0
    else ParseDecimal(s[..|s| - 1]) * 10 + (s[|s| - 1] as int - '0' as int)
  }

  /** `str(n)` is the decimal numeral of `n`: reading it back gives `n`. */
  lemma {:induction false} DecimalRoundTrip(n: nat)
    ensures ParseDecimal(NatToString(n)) == n
  {
    if n >= 10 {
      var s := NatToString(n);
      assert s[..|s| - 1] == NatToString(n / 10);
      DecimalRoundTrip(n / 10);
    }
  }
}
