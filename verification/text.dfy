/** Character-level helpers: ASCII case folding, SQL LIKE matching, index
    searches and decimal rendering of integers. */
module Text {

  /** ASCII lower-casing, the folding SQLite's lower() and LIKE apply. */
  function Lower(c: char): char {
    if 'A' <= c <= 'Z' then (c as int + 32) as char else c
  }

  function LowerStr(s: string): (r: string)
    ensures |r| == |s|
    ensures forall i :: 0 <= i < |s| ==> r[i] == Lower(s[i])
  {
    if s == [] then [] else [Lower(s[0])] + LowerStr(s[1..])
  }

  predicate NoWildcards(p: string) {
    forall i :: 0 <= i < |p| ==> p[i] != '%' && p[i] != '_'
  }

  /** `kw` occurs in `s` at position `i`, ignoring ASCII case. */
  predicate OccursAt(s: string, kw: string, i: int) {
    0 <= i && i + |kw| <= |s| && forall k :: 0 <= k < |kw| ==> Lower(kw[k]) == Lower(s[i + k])
  }

  /** SQL `s LIKE p` without an ESCAPE clause: `%` matches any run of
      characters, `_` any single character, and other characters match
      without regard to ASCII case. */
  function Like(s: string, p: string): (r: bool)
    ensures NoWildcards(p) ==> (r <==> |s| == |p| && OccursAt(s, p, 0))
    decreases |s| + |p|
  {
    if p == [] then s == []
    else if p[0] == '%' then Like(s, p[1..]) || (s != [] && Like(s[1..], p))
    else s != [] && (p[0] == '_' || Lower(p[0]) == Lower(s[0])) && Like(s[1..], p[1..])
  }

  predicate SliceAt(text: string, sub: string, i: nat) {
    i + |sub| <= |text| && text[i..i + |sub|] == sub
  }

  predicate Contains(text: string, sub: string) {
    exists i: nat | i <= |text| :: SliceAt(text, sub, i)
  }

  lemma {:induction false} LikeTrailingPercent(s: string)
    ensures Like(s, "%")
    decreases |s|
  {
    if s != [] {
      LikeTrailingPercent(s[1..]);
    }
  }

  /** `q%` matches exactly the strings that start with `q`, ignoring case. */
  lemma {:induction false} LikePrefix(s: string, q: string)
    requires NoWildcards(q)
    ensures Like(s, q + "%") <==> OccursAt(s, q, 0)
    decreases |q|
  {
    var p := q + "%";
    if q == [] {
      assert p == "%";
      LikeTrailingPercent(s);
    } else {
      assert p[0] == q[0] && p[1..] == q[1..] + "%";
      assert q[0] != '%' && q[0] != '_';
      assert NoWildcards(q[1..]) by {
        forall i | 0 <= i < |q[1..]| ensures q[1..][i] != '%' && q[1..][i] != '_' {
          assert q[1..][i] == q[i + 1];
        }
      }
      if s == [] {
        assert !OccursAt(s, q, 0);
      } else {
        LikePrefix(s[1..], q[1..]);
        if OccursAt(s, q, 0) {
          forall k | 0 <= k < |q[1..]| ensures Lower(q[1..][k]) == Lower(s[1..][0 + k]) {
            assert q[1..][k] == q[k + 1] && s[1..][k] == s[k + 1];
          }
          assert Lower(q[0]) == Lower(s[0 + 0]);
        }
        if Like(s, p) {
          assert OccursAt(s[1..], q[1..], 0);
          forall k | 0 <= k < |q| ensures Lower(q[k]) == Lower(s[0 + k]) {
            if k > 0 {
              assert q[1..][k - 1] == q[k] && s[1..][0 + (k - 1)] == s[k];
            }
          }
        }
      }
    }
  }

  /** A leading `%` lets the rest of the pattern start at any position. */
  lemma {:induction false} LikeLeadingPercent(s: string, t: string)
    ensures Like(s, "%" + t) <==> exists i :: 0 <= i <= |s| && Like(s[i..], t)
    decreases |s|
  {
    var p := "%" + t;
    assert p[0] == '%' && p[1..] == t;
    assert s[0..] == s;
    if s != [] {
      LikeLeadingPercent(s[1..], t);
      if Like(s[1..], p) {
        var i :| 0 <= i <= |s[1..]| && Like(s[1..][i..], t);
        assert s[1..][i..] == s[i + 1..];
      }
      if exists i :: 0 <= i <= |s| && Like(s[i..], t) {
        var i :| 0 <= i <= |s| && Like(s[i..], t);
        if i > 0 {
          assert s[1..][i - 1..] == s[i..];
        }
      }
    }
  }

  lemma KeywordLikeFindsSubstring(s: string, kw: string)
    requires NoWildcards(kw)
    requires Like(s, "%" + (kw + "%"))
    ensures Contains(LowerStr(s), LowerStr(kw))
  {
    LikeLeadingPercent(s, kw + "%");
    var i :| 0 <= i <= |s| && Like(s[i..], kw + "%");
    LikePrefix(s[i..], kw);
    assert LowerStr(s)[i..i + |kw|] == LowerStr(kw) by {
      forall k | 0 <= k < |kw| ensures LowerStr(s)[i..i + |kw|][k] == LowerStr(kw)[k] {
        assert s[i..][0 + k] == s[i + k];
      }
    }
    assert i <= |LowerStr(s)| && SliceAt(LowerStr(s), LowerStr(kw), i);
  }

  lemma SubstringSatisfiesKeywordLike(s: string, kw: string)
    requires NoWildcards(kw)
    requires Contains(LowerStr(s), LowerStr(kw))
    ensures Like(s, "%" + (kw + "%"))
  {
    var i: nat :| i <= |LowerStr(s)| && SliceAt(LowerStr(s), LowerStr(kw), i);
    LikePrefix(s[i..], kw);
    forall k | 0 <= k < |kw| ensures Lower(kw[k]) == Lower(s[i..][0 + k]) {
      assert LowerStr(s)[i..i + |kw|][k] == LowerStr(kw)[k];
      assert s[i..][0 + k] == s[i + k];
    }
    assert Like(s[i..], kw + "%");
    LikeLeadingPercent(s, kw + "%");
  }

  /** The keyword filter `lower(s) LIKE lower('%kw%')` is a case-insensitive
      substring test whenever the keyword holds no wildcard character. */
  lemma KeywordLikeIsSubstring(s: string, kw: string)
    requires NoWildcards(kw)
    ensures Like(s, "%" + kw + "%") <==> Contains(LowerStr(s), LowerStr(kw))
  {
    assert "%" + kw + "%" == "%" + (kw + "%");
    if Like(s, "%" + kw + "%") {
      KeywordLikeFindsSubstring(s, kw);
    }
    if Contains(LowerStr(s), LowerStr(kw)) {
      SubstringSatisfiesKeywordLike(s, kw);
    }
  }

  /** The position of the first `c` in `s`, or -1 when there is none. */
  function IndexOf(s: string, c: char): (r: int)
    ensures -1 <= r < |s|
    ensures r >= 0 ==> s[r] == c
    ensures forall k :: 0 <= k < |s| && (r < 0 || k < r) ==> s[k] != c
  {
    if s == [] then -1
    else if s[0] == c then 0
    else
      var r := IndexOf(s[1..], c);
      if r < 0 then -1 else r + 1
  }

  /** The position of the last `c` in `s`, or -1 when there is none. */
  function LastIndexOf(s: string, c: char): (r: int)
    ensures -1 <= r < |s|
    ensures r >= 0 ==> s[r] == c
    ensures forall k :: r < k < |s| ==> s[k] != c
  {
    if s == [] then -1
    else if s[|s| - 1] == c then |s| - 1
    else LastIndexOf(s[..|s| - 1], c)
  }

  predicate IsDigit(c: char) { '0' <= c <= '9' }

  function DigitChar(d: nat): (c: char)
    requires d < 10
    ensures IsDigit(c) && c as int - '0' as int == d
  {
    ('0' as int + d) as char
  }

  /** Python's str() of a non-negative int: decimal digits, no leading zero. */
  function NatToString(n: nat): (r: string)
    ensures |r| >= 1 && forall i :: 0 <= i < |r| ==> IsDigit(r[i])
    ensures |r| > 1 ==> r[0] != '0'
  {
    if n < 10 then [DigitChar(n)] else NatToString(n / 10) + [DigitChar(n % 10)]
  }

  /** Python's str() of an int. */
  function IntToString(n: int): (r: string)
    ensures r != [] && forall i :: 0 <= i < |r| ==> IsDigit(r[i]) || (i == 0 && r[i] == '-')
  {
    if n < 0 then "-" + NatToString(-n) else NatToString(n)
  }

  function DigitValue(c: char): (d: nat)
    requires IsDigit(c)
    ensures d < 10 && DigitChar(d) == c
  {
    c as int - '0' as int
  }

  function ParseDigits(s: string): nat
    requires forall i :: 0 <= i < |s| ==> IsDigit(s[i])
  {
    if s == [] then 0
    else ParseDigits(s[..|s| - 1]) * 10 + DigitValue(s[|s| - 1])
  }

  function ParseInt(s: string): int
    requires s != []
    requires forall i :: 0 <= i < |s| ==> IsDigit(s[i]) || (i == 0 && s[i] == '-')
  {
    if s[0] == '-' then 0 - ParseDigits(s[1..]) else ParseDigits(s)
  }

  lemma {:induction false} NatToStringRoundTrip(n: nat)
    ensures ParseDigits(NatToString(n)) == n
  {
    if n >= 10 {
      var r := NatToString(n);
      assert r[..|r| - 1] == NatToString(n / 10);
      NatToStringRoundTrip(n / 10);
    }
  }

  /** Reading back the rendering of an int gives the int: the rendering
      loses nothing. */
  lemma IntToStringRoundTrip(n: int)
    ensures IntToString(n) != []
    ensures ParseInt(IntToString(n)) == n
  {
    if n < 0 {
      var r := IntToString(n);
      assert r[1..] == NatToString(-n);
      NatToStringRoundTrip(-n);
    } else {
      NatToStringRoundTrip(n);
    }
  }
}
