/** The few Python string operations the scripts rely on, written out over
    `seq<char>` (a character stands for one byte or one code point; no
    Unicode classes are modelled beyond ASCII). */
module Text {
  import opened Common

  /** Concatenation regrouped; stated once so that loops appending to a
      prefix need not rediscover it. */
  lemma ConcatAssoc(a: string, b: string, c: string)
    ensures (a + b) + c == a + (b + c)
  {
  }

  /** Python's `sub in s`. */
  predicate Contains(s: string, sub: string)
    decreases |s|
  {
    sub <= s || (s != [] && Contains(s[1..], sub))
  }

  lemma {:induction false} ContainsAt(s: string, sub: string, i: nat)
    requires i + |sub| <= |s| && s[i..i + |sub|] == sub
    ensures Contains(s, sub)
    decreases i
  {
    if i == 0 {
      assert s[..|sub|] == sub;
    } else {
      assert s[1..][i - 1..i - 1 + |sub|] == s[i..i + |sub|];
      ContainsAt(s[1..], sub, i - 1);
    }
  }

  /** Index of the first occurrence of `sep` in `s` (Python's `s.find(sep)`). */
  function Find(s: string, sep: string): (r: Option<nat>)
    ensures r.Some? ==> r.value + |sep| <= |s| && s[r.value..r.value + |sep|] == sep
    ensures r.Some? ==> forall j :: 0 <= j < r.value ==> !(sep <= s[j..])
    ensures r.None? ==> forall j :: 0 <= j <= |s| ==> !(sep <= s[j..])
    decreases |s|
  {
    if sep <= s then Some(0)
    else if s == [] then None
    else
      match Find(s[1..], sep)
      case None => MissShifted(s, sep, |s| - 1); None
      case Some(k) =>
        MissShifted(s, sep, k);
        MatchShifted(s, sep, k);
        Some(k + 1)
  }

  lemma MatchShifted(s: string, sep: string, k: nat)
    requires s != [] && k + |sep| <= |s| - 1 && s[1..][k..k + |sep|] == sep
    ensures s[k + 1..k + 1 + |sep|] == sep
  {
    assert s[k + 1..k + 1 + |sep|] == s[1..][k..k + |sep|];
  }

  /** A separator missing from the first `n` positions of `s[1..]` and from
      the front of `s` is missing from the first `n + 1` positions of `s`. */
  lemma MissShifted(s: string, sep: string, n: nat)
    requires s != [] && !(sep <= s) && n <= |s| - 1
    requires forall j :: 0 <= j < n ==> !(sep <= s[1..][j..])
    ensures forall j :: 0 <= j < n + 1 ==> !(sep <= s[j..])
  {
    forall j | 1 <= j < n + 1 ensures !(sep <= s[j..]) {
      assert s[j..] == s[1..][j - 1..];
    }
  }

  /** Python's `s.split(sep)[1]` for a non-empty separator: the text between
      the first and the second occurrence of `sep`; `IndexError` when `sep`
      does not occur at all. */
  function SecondField(s: string, sep: string): (r: Outcome<string>)
    requires sep != []
    ensures r.Raised? <==> Find(s, sep).None?
    ensures r.Raised? ==> r.error == IndexError
    ensures r.Ok? ==> !Contains(r.value, sep)
  {
    match Find(s, sep)
    case None => Raised(IndexError)
    case Some(i) =>
      var rest := s[i + |sep|..];
      match Find(rest, sep)
      case None =>
        NotContainedWithoutFind(rest, sep);
        Ok(rest)
      case Some(j) =>
        assert forall k :: 0 <= k <= j ==> rest[..j][k..] <= rest[k..];
        NotContainedWithoutFind(rest[..j], sep);
        Ok(rest[..j])
  }

  lemma NotContainedWithoutFind(s: string, sep: string)
    requires forall j :: 0 <= j < |s| ==> !(sep <= s[j..])
    requires sep != []
    ensures !Contains(s, sep)
    decreases |s|
  {
    if s != [] {
      assert s[0..] == s;
      assert forall j :: 0 <= j < |s| - 1 ==> s[1..][j..] == s[j + 1..];
      NotContainedWithoutFind(s[1..], sep);
    }
  }

  /** Python's `s.replace(c, '')` for a one-character `c`. */
  function RemoveChar(s: string, c: char): (r: string)
    ensures c !in r
    ensures forall x :: x in r ==> x in s
  {
    if s == [] then [] else (if s[0] == c then [] else [s[0]]) + RemoveChar(s[1..], c)
  }

  /** Python's `s.replace(pat, '')`: occurrences are found left to right and
      do not overlap. */
  function RemoveAll(s: string, pat: string): (r: string)
    requires pat != []
    ensures forall x :: x in r ==> x in s
    decreases |s|
  {
    if pat <= s then RemoveAll(s[|pat|..], pat)
    else if s == [] then []
    else [s[0]] + RemoveAll(s[1..], pat)
  }

  lemma {:induction false} RemoveCharAppend(a: string, b: string, c: char)
    ensures RemoveChar(a + b, c) == RemoveChar(a, c) + RemoveChar(b, c)
  {
    if a == [] {
      assert a + b == b;
    } else {
      assert (a + b)[1..] == a[1..] + b;
      RemoveCharAppend(a[1..], b, c);
    }
  }

  lemma {:induction false} RemoveCharAbsent(s: string, c: char)
    requires c !in s
    ensures RemoveChar(s, c) == s
  {
    if s != [] {
      RemoveCharAbsent(s[1..], c);
      assert s == [s[0]] + s[1..];
    }
  }

  /** One occurrence of `c` between text free of it is dropped. */
  lemma RemoveCharOnce(head: string, tail: string, c: char)
    requires c !in head && c !in tail
    ensures RemoveChar(head + [c] + tail, c) == head + tail
  {
    var x := head + [c];
    RemoveCharAppend(x, tail, c);
    RemoveCharAppend(head, [c], c);
    RemoveCharAbsent(head, c);
    RemoveCharAbsent(tail, c);
    assert RemoveChar([c], c) == [];
    assert RemoveChar(x, c) == head;
  }

  /** Text without the first character of the pattern passes `replace`
      unchanged. */
  lemma {:induction false} RemoveAllPrefix(a: string, b: string, pat: string)
    requires pat != [] && pat[0] !in a
    ensures RemoveAll(a + b, pat) == a + RemoveAll(b, pat)
  {
    if a == [] {
      assert a + b == b;
    } else {
      var s := a + b;
      assert s[0] == a[0] != pat[0];
      assert s[1..] == a[1..] + b;
      assert RemoveAll(s, pat) == [a[0]] + RemoveAll(s[1..], pat);
      RemoveAllPrefix(a[1..], b, pat);
      ConcatAssoc([a[0]], a[1..], RemoveAll(b, pat));
      assert [a[0]] + a[1..] == a;
    }
  }

  /** Every line followed by a newline, as successive `write(line + '\n')`. */
  function JoinLines(ls: seq<string>): string
  {
    if ls == [] then "" else ls[0] + "\n" + JoinLines(ls[1..])
  }

  lemma {:induction false} JoinLinesAppend(a: seq<string>, b: seq<string>)
    ensures JoinLines(a + b) == JoinLines(a) + JoinLines(b)
  {
    if a != [] {
      assert (a + b)[1..] == a[1..] + b;
      JoinLinesAppend(a[1..], b);
    } else {
      assert a + b == b;
    }
  }

  lemma JoinLinesSnoc(a: seq<string>, l: string)
    ensures JoinLines(a + [l]) == JoinLines(a) + l + "\n"
  {
    JoinLinesAppend(a, [l]);
    assert JoinLines([l]) == l + "\n" + JoinLines([]);
  }

  /** Python's `s.count(c)` for one character. */
  function CountChar(s: string, c: char): nat
  {
    if s == [] then 0 else (if s[0] == c then 1 else 0) + CountChar(s[1..], c)
  }

  /** Counts add up over a concatenation. */
  lemma {:induction false} CountCharConcat(a: string, b: string, c: char)
    ensures CountChar(a + b, c) == CountChar(a, c) + CountChar(b, c)
  {
    if a != [] {
      assert (a + b)[1..] == a[1..] + b;
      CountCharConcat(a[1..], b, c);
    } else {
      assert a + b == b;
    }
  }

  lemma {:induction false} CountCharAbsent(s: string, c: char)
    requires c !in s
    ensures CountChar(s, c) == 0
  {
    if s != [] {
      CountCharAbsent(s[1..], c);
    }
  }

  /** A line without a line break, with its terminator, holds one. */
  lemma LineCount(s: string)
    requires '\n' !in s
    ensures CountChar(s + "\n", '\n') == 1
  {
    CountCharAbsent(s, '\n');
    CountCharConcat(s, "\n", '\n');
  }

  /** Joined lines that hold no newline themselves give one newline per line. */
  lemma {:induction false} JoinLinesCount(ls: seq<string>)
    requires forall i :: 0 <= i < |ls| ==> '\n' !in ls[i]
    ensures CountChar(JoinLines(ls), '\n') == |ls|
  {
    if ls != [] {
      JoinLinesCount(ls[1..]);
      LineCount(ls[0]);
      CountCharConcat(ls[0] + "\n", JoinLines(ls[1..]), '\n');
    }
  }

  predicate IsDigit(c: char) { '0' <= c <= '9' }

  /** Python's `s.isdigit()` on ASCII text. */
  predicate IsDigits(s: string)
  {
    s != [] && forall i :: 0 <= i < |s| ==> IsDigit(s[i])
  }

  /** Python's `int(s)` on a string of decimal digits. */
  function DigitsValue(s: string): nat
    requires forall i :: 0 <= i < |s| ==> IsDigit(s[i])
  {
    if s == [] then 0
    else
      assert IsDigit(s[|s| - 1]);
      DigitsValue(s[..|s| - 1]) * 10 + (s[|s| - 1] as int - '0' as int)
  }

  function NatToString(n: nat): (r: string)
    ensures r != []
    ensures forall i :: 0 <= i < |r| ==> IsDigit(r[i])
  {
    if n < 10 then [('0' as int + n) as char]
    else NatToString(n / 10) + [('0' as int + n % 10) as char]
  }

  /** Python's `'%d' % n`. */
  function IntToString(n: int): (r: string)
    ensures r != [] && ',' !in r && ' ' !in r && '\n' !in r
  {
    if n < 0 then "-" + NatToString(-n) else NatToString(n)
  }

  predicate IsSpace(c: char)
  {
    c == ' ' || c == '\t' || c == '\n' || c == '\r' || c == 11 as char || c == 12 as char
  }

  /** Python's `s.strip()` for ASCII whitespace. */
  function Strip(s: string): (r: string)
    ensures |r| <= |s|
    decreases |s|
  {
    if s != [] && IsSpace(s[0]) then Strip(s[1..])
    else if s != [] && IsSpace(s[|s| - 1]) then Strip(s[..|s| - 1])
    else s
  }

  function Lower(s: string): (r: string)
    ensures |r| == |s|
  {
    seq(|s|, i requires 0 <= i < |s| => if 'A' <= s[i] <= 'Z' then (s[i] as int + 32) as char else s[i])
  }
}
