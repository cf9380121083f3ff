/** The handful of Python `str` operations the check-in code relies on:
    `strip`, `split`, `join`, `replace(pat, '')`, `pat in s`, `startswith`,
    `endswith`, `lower` and `str()` of an integer, each with the
    property that makes it what Python promises.
 */
module Text {

  /** Python's `str.isspace` for a single character. */
  predicate IsSpace(c: char) {
    var n := c as int;
    || (9 <= n <= 13) || (28 <= n <= 32) || n == 0x85 || n == 0xA0 || n == 0x1680
    || (0x2000 <= n <= 0x200A) || n == 0x2028 || n == 0x2029 || n == 0x202F
    || n == 0x205F || n == 0x3000
  }

  predicate AllSpace(s: string) {
    forall i :: 0 <= i < |s| ==> IsSpace(s[i])
  }

  /** The end of the run of whitespace that starts at `i`. */
  function SpaceEnd(s: string, i: nat): (n: nat)
    requires i <= |s|
    ensures i <= n <= |s|
    ensures forall j :: i <= j < n ==> IsSpace(s[j])
    ensures n < |s| ==> !IsSpace(s[n])
    decreases |s| - i
  {
    if i < |s| && IsSpace(s[i]) then SpaceEnd(s, i + 1) else i
  }

  /** The start of the run of whitespace that ends at `i`, not going below `lo`. */
  function SpaceStart(s: string, lo: nat, i: nat): (m: nat)
    requires lo <= i <= |s|
    ensures lo <= m <= i
    ensures forall j :: m <= j < i ==> IsSpace(s[j])
    ensures m > lo ==> !IsSpace(s[m - 1])
    decreases i - lo
  {
    if i > lo && IsSpace(s[i - 1]) then SpaceStart(s, lo, i - 1) else i
  }

  /** Python's `s.strip()`: the slice between the leading and the trailing
      whitespace. */
  function Strip(s: string): (r: string)
    ensures |r| <= |s|
    ensures r == [] <==> AllSpace(s)
    ensures r != [] ==> !IsSpace(r[0]) && !IsSpace(r[|r| - 1])
    ensures exists a, b :: 0 <= a <= b <= |s| && r == s[a..b] && AllSpace(s[..a]) && AllSpace(s[b..])
  {
    var a := SpaceEnd(s, 0);
    var b := SpaceStart(s, a, |s|);
    assert AllSpace(s[..a]) && AllSpace(s[b..]);
    assert a < b ==> s[a..b][0] == s[a] && s[a..b][b - a - 1] == s[b - 1];
    assert a == b ==> AllSpace(s) by {
      if a == b {
        forall j | 0 <= j < |s| ensures IsSpace(s[j]) {
          assert j < a || b <= j;
        }
      }
    }
    s[a..b]
  }

  /** Any cut of `s` into whitespace, a part that neither starts nor ends
      with whitespace, and whitespace, has that part as its strip. */
  lemma StripCharacterized(s: string, a: nat, b: nat)
    requires a <= b <= |s|
    requires AllSpace(s[..a]) && AllSpace(s[b..])
    requires a < b ==> !IsSpace(s[a]) && !IsSpace(s[b - 1])
    ensures Strip(s) == s[a..b]
  {
    assert forall j :: 0 <= j < a ==> s[..a][j] == s[j];
    assert forall j :: b <= j < |s| ==> s[b..][j - b] == s[j];
  }

  /** `pat` occurs in `s` starting at index `i`. */
  predicate OccursAt(s: string, pat: string, i: int) {
    0 <= i && i + |pat| <= |s| && s[i..i + |pat|] == pat
  }

  /** Python's `pat in s`. */
  predicate Contains(s: string, pat: string) {
    exists i :: 0 <= i <= |s| - |pat| && OccursAt(s, pat, i)
  }

  predicate StartsWith(s: string, prefix: string) {
    |prefix| <= |s| && s[..|prefix|] == prefix
  }

  predicate EndsWith(s: string, suffix: string) {
    |suffix| <= |s| && s[|s| - |suffix|..] == suffix
  }

  lemma OccursShift(s: string, pat: string, j: int)
    requires s != [] && 0 <= j
    ensures OccursAt(s[1..], pat, j) <==> OccursAt(s, pat, j + 1)
  {
    if j + 1 + |pat| <= |s| {
      assert s[1..][j..j + |pat|] == s[j + 1..j + 1 + |pat|];
    }
  }

  lemma OccursInPrefix(s: string, pat: string, n: nat, j: int)
    requires n <= |s|
    requires OccursAt(s[..n], pat, j)
    ensures OccursAt(s, pat, j)
  {
    assert s[..n][j..j + |pat|] == s[j..j + |pat|];
  }

  lemma OccursInSuffix(s: string, pat: string, n: nat, j: int)
    requires n <= |s| && 0 <= j
    ensures OccursAt(s[n..], pat, j) <==> OccursAt(s, pat, n + j)
  {
    if n + j + |pat| <= |s| {
      assert s[n..][j..j + |pat|] == s[n + j..n + j + |pat|];
    }
  }

  /** A one-character pattern occurs wherever that character is. */
  lemma CharOccurs(s: string, c: char, j: nat)
    requires j < |s| && s[j] == c
    ensures OccursAt(s, [c], j) && Contains(s, [c])
  {
    assert s[j..j + 1] == [c];
    assert 0 <= j <= |s| - |[c]| && OccursAt(s, [c], j);
  }

  /** Nothing occurs in `s` once it neither occurs at the head nor in the tail. */
  lemma AbsentByTail(s: string, pat: string)
    requires s != [] && !OccursAt(s, pat, 0) && !Contains(s[1..], pat)
    ensures !Contains(s, pat)
  {
    forall i | 0 < i <= |s| - |pat| ensures !OccursAt(s, pat, i) {
      OccursShift(s, pat, i - 1);
    }
  }

  /** Python's `s.find(pat)`: the first index where `pat` occurs, or -1. */
  function IndexOf(s: string, pat: string): (r: int)
    ensures -1 <= r
    ensures r == -1 <==> !Contains(s, pat)
    ensures r >= 0 ==> OccursAt(s, pat, r)
    ensures forall j :: 0 <= j < r ==> !OccursAt(s, pat, j)
    decreases |s|
  {
    if |s| < |pat| then
      -1
    else if s[..|pat|] == pat then
      assert OccursAt(s, pat, 0);
      0
    else
      var k := IndexOf(s[1..], pat);
      if k < 0 then
        AbsentByTail(s, pat);
        -1
      else
        OccursShift(s, pat, k);
        assert forall j :: 0 <= j < k + 1 ==> !OccursAt(s, pat, j) by {
          forall j | 0 < j < k + 1 ensures !OccursAt(s, pat, j) {
            OccursShift(s, pat, j - 1);
          }
        }
        k + 1
  }

  /** Python's `sep.join(parts)`. */
  function Join(parts: seq<string>, sep: string): string {
    if |parts| == 0 then ""
    else if |parts| == 1 then parts[0]
    else parts[0] + sep + Join(parts[1..], sep)
  }

  /** Python's `s.split(sep)` for a non-empty separator: cut at each
      occurrence of `sep`, scanning left to right.  The first piece ends at
      the leftmost occurrence, and the rest is the split of what follows
      it, so the cuts are the leftmost ones even for a separator that
      overlaps itself. */
  function Split(s: string, sep: string): (r: seq<string>)
    requires sep != []
    ensures |r| >= 1
    ensures Join(r, sep) == s
    ensures forall k :: 0 <= k < |r| ==> !Contains(r[k], sep)
    ensures |r| >= 2 <==> Contains(s, sep)
    ensures forall p :: 0 <= p < |r[0]| ==> !OccursAt(s, sep, p)
    ensures |r| >= 2 ==> OccursAt(s, sep, |r[0]|) && r[1..] == Split(s[|r[0]| + |sep|..], sep)
    decreases |s|
  {
    var i := IndexOf(s, sep);
    if i < 0 then
      [s]
    else
      var rest := Split(s[i + |sep|..], sep);
      var r := [s[..i]] + rest;
      assert r[1..] == rest;
      assert s == s[..i] + sep + s[i + |sep|..] by {
        assert s[i..i + |sep|] == sep;
        assert s == s[..i] + s[i..i + |sep|] + s[i + |sep|..];
      }
      assert !Contains(s[..i], sep) by {
        forall j | 0 <= j <= i - |sep| ensures !OccursAt(s[..i], sep, j) {
          if OccursAt(s[..i], sep, j) {
            OccursInPrefix(s, sep, i, j);
          }
        }
      }
      assert OccursAt(s, sep, i);
      r
  }

  /** The first piece of a split is the longest prefix before the first separator. */
  lemma SplitHead(s: string, sep: string)
    requires sep != []
    ensures var h := Split(s, sep)[0];
      |h| <= |s| && h == s[..|h|] && (|h| == |s| || OccursAt(s, sep, |h|))
    ensures forall p :: 0 <= p < |Split(s, sep)[0]| ==> !OccursAt(s, sep, p)
  {
  }

  /** When `s` contains `sep`, the second piece of the split starts right
      after the first occurrence of `sep`. */
  lemma SplitSecond(s: string, sep: string)
    requires sep != [] && Contains(s, sep)
    ensures Split(s, sep)[1] == Split(s[IndexOf(s, sep) + |sep|..], sep)[0]
  {
  }

  /** Python's `s.replace(pat, '')`: every non-overlapping occurrence of
      `pat`, found left to right, is deleted. */
  function RemoveAll(s: string, pat: string): (r: string)
    requires pat != []
    ensures |r| <= |s|
    decreases |s|
  {
    if |s| < |pat| then s
    else if s[..|pat|] == pat then RemoveAll(s[|pat|..], pat)
    else [s[0]] + RemoveAll(s[1..], pat)
  }

  lemma JoinCons(x: string, rest: seq<string>, sep: string)
    requires rest != []
    ensures Join([x] + rest, sep) == x + sep + Join(rest, sep)
  {
    assert ([x] + rest)[1..] == rest;
  }

  /** Prepending a character to the first piece prepends it to the join. */
  lemma JoinConsChar(c: char, first: string, rest: seq<string>)
    ensures Join([[c] + first] + rest, "") == [c] + Join([first] + rest, "")
  {
    if rest != [] {
      JoinCons([c] + first, rest, "");
      JoinCons(first, rest, "");
      assert ([c] + first) + "" + Join(rest, "") == [c] + (first + "" + Join(rest, ""));
    }
  }

  /** Searching a string whose head does not start `pat` is searching its tail. */
  lemma IndexOfCons(s: string, pat: string)
    requires s != [] && !OccursAt(s, pat, 0)
    ensures IndexOf(s, pat) == if IndexOf(s[1..], pat) < 0 then -1 else IndexOf(s[1..], pat) + 1
  {
  }

  /** Splitting a string whose head does not start a separator: the head
      character joins the first piece of the tail's split. */
  lemma SplitConsChar(s: string, sep: string)
    requires sep != [] && s != [] && !OccursAt(s, sep, 0)
    ensures var tail := Split(s[1..], sep);
      Split(s, sep) == [[s[0]] + tail[0]] + tail[1..]
  {
    IndexOfCons(s, sep);
    if IndexOf(s[1..], sep) < 0 {
      SplitConsCharAbsent(s, sep);
    } else {
      SplitConsCharPresent(s, sep);
    }
  }

  lemma SplitConsCharAbsent(s: string, sep: string)
    requires sep != [] && s != [] && IndexOf(s, sep) < 0 && IndexOf(s[1..], sep) < 0
    ensures var tail := Split(s[1..], sep);
      Split(s, sep) == [[s[0]] + tail[0]] + tail[1..]
  {
    assert Split(s[1..], sep) == [s[1..]];
    assert s == [s[0]] + s[1..];
  }

  lemma SplitConsCharPresent(s: string, sep: string)
    requires sep != [] && s != []
    requires 0 <= IndexOf(s[1..], sep) && IndexOf(s, sep) == IndexOf(s[1..], sep) + 1
    ensures var tail := Split(s[1..], sep);
      Split(s, sep) == [[s[0]] + tail[0]] + tail[1..]
  {
    var k := IndexOf(s[1..], sep);
    var i := IndexOf(s, sep);
    var tail := Split(s[1..], sep);
    var rest := Split(s[1..][k + |sep|..], sep);
    ShiftSlices(s, i, k, |sep|);
    assert Split(s, sep) == [s[..i]] + rest;
    assert tail == [s[1..][..k]] + rest;
    assert tail[1..] == rest;
  }

  /** Slices of `s` and of `s[1..]` with positions one apart. */
  lemma ShiftSlices(s: string, i: nat, k: nat, n: nat)
    requires i == k + 1 && i + n <= |s|
    ensures s[..i] == [s[0]] + s[1..][..k]
    ensures s[i + n..] == s[1..][k + n..]
  {
  }

  /** Deleting a pattern is joining the pieces of the split with nothing:
      the identity `s.replace(pat, '') == ''.join(s.split(pat))`. */
  lemma {:induction false} RemoveAllIsJoinOfSplit(s: string, pat: string)
    requires pat != []
    ensures RemoveAll(s, pat) == Join(Split(s, pat), "")
    decreases |s|
  {
    if |s| < |pat| {
      assert !Contains(s, pat);
    } else if s[..|pat|] == pat {
      assert OccursAt(s, pat, 0);
      RemoveAllIsJoinOfSplit(s[|pat|..], pat);
      var rest := Split(s[|pat|..], pat);
      assert Split(s, pat) == [""] + rest;
      assert ([""] + rest)[1..] == rest;
    } else {
      RemoveAllIsJoinOfSplit(s[1..], pat);
      SplitConsChar(s, pat);
      var tail := Split(s[1..], pat);
      JoinConsChar(s[0], tail[0], tail[1..]);
      assert [tail[0]] + tail[1..] == tail;
    }
  }

  /** ASCII lower-casing of one character. */
  function LowerChar(c: char): char {
    if 'A' <= c <= 'Z' then (c as int + 32) as char else c
  }

  /** Python's `s.lower()` on ASCII letters; other characters are kept. */
  function Lower(s: string): (r: string)
    ensures |r| == |s|
  {
    if s == [] then [] else [LowerChar(s[0])] + Lower(s[1..])
  }

  lemma LowerAt(s: string, i: nat)
    requires i < |s|
    ensures Lower(s)[i] == LowerChar(s[i])
  {
    if i > 0 {
      LowerAt(s[1..], i - 1);
    }
  }

  lemma LowerCharIs(c: char, lower: char, upper: char)
    requires 'a' <= lower <= 'z' && upper as int == lower as int - 32
    ensures LowerChar(c) == lower <==> c == lower || c == upper
  {
  }

  /** The word "true" spelt in any mix of upper and lower case. */
  predicate IsTrueInAnyCase(s: string) {
    && |s| == 4
    && (s[0] == 't' || s[0] == 'T') && (s[1] == 'r' || s[1] == 'R')
    && (s[2] == 'u' || s[2] == 'U') && (s[3] == 'e' || s[3] == 'E')
  }

  /** `s.lower() == 'true'` holds exactly for the spellings of "true". */
  lemma LowerIsTrue(s: string)
    ensures Lower(s) == "true" <==> IsTrueInAnyCase(s)
  {
    if |s| == 4 {
      LowerAt(s, 0);
      LowerAt(s, 1);
      LowerAt(s, 2);
      LowerAt(s, 3);
      var l := Lower(s);
      assert l == [l[0], l[1], l[2], l[3]];
      LowerCharIs(s[0], 't', 'T');
      LowerCharIs(s[1], 'r', 'R');
      LowerCharIs(s[2], 'u', 'U');
      LowerCharIs(s[3], 'e', 'E');
    }
  }

  function DigitChar(d: nat): char
    requires d < 10
  {
    ('0' as int + d) as char
  }

  predicate IsDigit(c: char) {
    '0' <= c <= '9'
  }

  /** Python's `str(n)` for a natural number: decimal, no leading zeros. */
  function NatToString(n: nat): (r: string)
    ensures |r| >= 1
    ensures forall i :: 0 <= i < |r| ==> IsDigit(r[i])
    ensures r[0] == '0' ==> n == 0
    decreases n
  {
    if n < 10 then [DigitChar(n)]
    else NatToString(n / 10) + [DigitChar(n % 10)]
  }

  /** Python's `str(n)` for any integer. */
  function IntToString(n: int): (r: string)
    ensures |r| >= 1
    ensures n < 0 <==> r[0] == '-'
  {
    if n < 0 then "-" + NatToString(-n) else NatToString(n)
  }

  /** The decimal value of a string of digits (the inverse of `NatToString`). */
  function ParseNat(s: string): nat
    requires forall i :: 0 <= i < |s| ==> IsDigit(s[i])
  {
    if s == [] then 0
    else
      assert IsDigit(s[|s| - 1]);
      10 * ParseNat(s[..|s| - 1]) + (s[|s| - 1] as int - '0' as int)
  }

  /** Reading back the decimal text gives the number: `int(str(n)) == n`. */
  lemma {:induction false} ParseNatToString(n: nat)
    ensures ParseNat(NatToString(n)) == n
    decreases n
  {
    if n >= 10 {
      var r := NatToString(n);
      assert r[..|r| - 1] == NatToString(n / 10);
      ParseNatToString(n / 10);
    }
  }
}
