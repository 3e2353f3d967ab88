/**
 * The few pieces of JavaScript string behaviour the core relies on: the decimal
 * text of an integer (`Number.prototype.toString`), reading decimal text back
 * (`Number(text)` on plain decimal digits), `Array.prototype.join` and
 * `String.prototype.split` with a one-character separator.
 */
module Text {

  predicate IsDigit(c: char) {
    '0' <= c <= '9'
  }

  predicate AllDigits(s: string) {
    forall i :: 0 <= i < |s| ==> IsDigit(s[i])
  }

  function Digit(d: nat): (c: char)
    requires d < 10
    ensures IsDigit(c) && c as int - '0' as int == d
  {
    "0123456789"[d]
  }

  /** Decimal text of a natural number, most significant digit first, no leading zeros. */
  function NatText(n: nat): string
  {
    if n < 10 then [Digit(n)] else NatText(n / 10) + [Digit(n % 10)]
  }

  /** Decimal text of an integer, with a leading '-' when negative. */
  function IntText(n: int): string
  {
    if n < 0 then "-" + NatText(-n) else NatText(n)
  }

  /** The number a string of decimal digits denotes (leading zeros allowed). */
  function DigitsValue(s: string): nat
    requires AllDigits(s)
  {
    if s == [] then 0 else DigitsValue(s[..|s| - 1]) * 10 + (s[|s| - 1] as int - '0' as int)
  }

  /** NatText yields a non-empty run of digits that reads back as the same number. */
  lemma {:induction false} NatTextReadsBack(n: nat)
    ensures |NatText(n)| > 0 && AllDigits(NatText(n))
    ensures DigitsValue(NatText(n)) == n
  {
    if n >= 10 {
      NatTextReadsBack(n / 10);
      var s := NatText(n);
      assert s[..|s| - 1] == NatText(n / 10);
    }
  }

  /** Different numbers have different decimal texts. */
  lemma NatTextInjective(m: nat, n: nat)
    ensures NatText(m) == NatText(n) <==> m == n
  {
    NatTextReadsBack(m);
    NatTextReadsBack(n);
  }

  /** `Array.prototype.join(sep)` on strings. */
  function Join(parts: seq<string>, sep: string): string
  {
    if |parts| == 0 then ""
    else if |parts| == 1 then parts[0]
    else parts[0] + sep + Join(parts[1..], sep)
  }

  /**
   * `String.prototype.split(c)` for a one-character separator: every occurrence
   * of c ends a token, so n separators give n + 1 tokens, empty ones included.
   */
  function Split(s: string, c: char): (tokens: seq<string>)
    ensures |tokens| >= 1
  {
    if s == [] then [""]
    else if s[0] == c then [""] + Split(s[1..], c)
    else var rest := Split(s[1..], c); [[s[0]] + rest[0]] + rest[1..]
  }

  /** Number of occurrences of c in s. */
  function Count(s: string, c: char): nat
  {
    if s == [] then 0 else (if s[0] == c then 1 else 0) + Count(s[1..], c)
  }

  /** A character occurs in a string exactly when its count there is positive. */
  lemma {:induction false} CountIn(s: string, c: char)
    ensures c in s <==> Count(s, c) > 0
  {
    if s != [] {
      CountIn(s[1..], c);
      assert s == [s[0]] + s[1..];
    }
  }

  /** Splitting yields one more token than there are separators. */
  lemma {:induction false} SplitCount(s: string, c: char)
    ensures |Split(s, c)| == Count(s, c) + 1
  {
    if s != [] {
      SplitCount(s[1..], c);
    }
  }

  /** No token contains the separator. */
  lemma {:induction false} SplitTokensFree(s: string, c: char)
    ensures forall t :: t in Split(s, c) ==> c !in t
  {
    if s != [] {
      SplitTokensFree(s[1..], c);
      var rest := Split(s[1..], c);
      if s[0] != c {
        assert rest[0] in rest;
        forall t | t in Split(s, c)
          ensures c !in t
        {
          if t != [s[0]] + rest[0] {
            assert t in rest[1..];
          }
        }
      }
    }
  }

  /** Joining the tokens with the separator gives back the string. */
  lemma {:induction false} JoinSplit(s: string, c: char)
    ensures Join(Split(s, c), [c]) == s
  {
    if s != [] {
      JoinSplit(s[1..], c);
      var rest := Split(s[1..], c);
      if s[0] == c {
        assert Split(s, c)[1..] == rest;
      } else if |rest| > 1 {
        var tokens := Split(s, c);
        assert tokens[1..] == rest[1..];
        assert Join(rest, [c]) == rest[0] + [c] + Join(rest[1..], [c]);
      }
    }
  }

  /** A separator-free prefix only lengthens the first token. */
  lemma {:induction false} SplitFreePrefix(p: string, u: string, c: char)
    requires c !in p
    ensures Split(p + u, c) == [p + Split(u, c)[0]] + Split(u, c)[1..]
  {
    if p != [] {
      SplitFreePrefix(p[1..], u, c);
      var tokens := Split(u, c);
      var rest := Split(p[1..] + u, c);
      assert (p + u)[0] == p[0] && (p + u)[1..] == p[1..] + u;
      assert rest[0] == p[1..] + tokens[0] && rest[1..] == tokens[1..];
      assert Split(p + u, c) == [[p[0]] + rest[0]] + rest[1..];
      assert [p[0]] + (p[1..] + tokens[0]) == p + tokens[0];
    } else {
      var tokens := Split(u, c);
      assert p + u == u && p + tokens[0] == tokens[0];
      assert tokens == [tokens[0]] + tokens[1..];
    }
  }

  /** Splitting a join of separator-free parts gives back the parts. */
  lemma {:induction false} SplitJoin(parts: seq<string>, c: char)
    requires |parts| >= 1
    requires forall k :: 0 <= k < |parts| ==> c !in parts[k]
    ensures Split(Join(parts, [c]), c) == parts
  {
    if |parts| == 1 {
      SplitFreePrefix(parts[0], "", c);
      assert parts[0] + "" == parts[0];
    } else {
      var tail := Join(parts[1..], [c]);
      SplitJoin(parts[1..], c);
      assert parts[0] + [c] + tail == parts[0] + ([c] + tail);
      SplitFreePrefix(parts[0], [c] + tail, c);
      assert ([c] + tail)[1..] == tail;
      assert Split([c] + tail, c) == [""] + parts[1..];
      assert parts[0] + "" == parts[0];
    }
  }
}
