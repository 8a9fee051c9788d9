/** String helpers shared by the chunker, the ingestor and the answer route:
    whitespace, JavaScript's `trim()`, decimal rendering of numbers and `Array.join`. */
module Text {

  type String = seq<char>

  /** The whitespace characters recognised by `\s` and `trim()` in this model
      (a fixed ASCII subset of JavaScript's Unicode whitespace). */
  predicate IsWhitespace(c: char) {
    c == ' ' || c == '\t' || c == '\n' || c == '\r' || c == '\U{000B}' || c == '\U{000C}'
  }

  predicate AllWhitespace(s: String) {
    forall i :: 0 <= i < |s| ==> IsWhitespace(s[i])
  }

  /** No whitespace at either end. */
  predicate Trimmed(s: String) {
    s == [] || (!IsWhitespace(s[0]) && !IsWhitespace(s[|s| - 1]))
  }

  /** The suffix of `s` left after dropping its longest prefix of characters satisfying `p`. */
  function DropWhile(s: String, p: char -> bool): (r: String)
    ensures |r| <= |s| && r == s[|s| - |r|..]
    ensures forall i :: 0 <= i < |s| - |r| ==> p(s[i])
    ensures r == [] || !p(r[0])
  {
    if |s| > 0 && p(s[0]) then DropWhile(s[1..], p) else s
  }

  // ---------------------------------------------------------------------------
  // Concatenation facts, stated generically so that proofs about the text
  // rewrites use them without unfolding the rewrites' contracts

  lemma ConcatAssoc<T>(x: seq<T>, y: seq<T>, z: seq<T>)
    ensures x + (y + z) == x + y + z
  {
  }

  lemma ConcatUnits<T>(a: seq<T>, b: seq<T>)
    ensures |a| > 0 ==> (a + b)[0] == a[0] && (a + b)[1..] == a[1..] + b
    ensures a + [] == a && [] + b == b
  {
  }

  lemma ConcatPrefix<T>(a: seq<T>, b: seq<T>, n: nat)
    requires n <= |a|
    ensures (a + b)[..n] == a[..n]
    ensures a[..|a|] == a
  {
  }

  /** Dropping a prefix from a concatenation: when the first part is all
      dropped the second part's prefix goes too; otherwise the second part
      is untouched. */
  lemma {:induction false} DropWhileAppend(a: String, b: String, p: char -> bool)
    ensures DropWhile(a + b, p) == if DropWhile(a, p) == [] then DropWhile(b, p) else DropWhile(a, p) + b
    decreases |a|
  {
    if |a| == 0 {
      assert a + b == b;
    } else if p(a[0]) {
      assert (a + b)[1..] == a[1..] + b;
      DropWhileAppend(a[1..], b, p);
    }
  }

  /** `s.trimStart()`: drops the leading whitespace. */
  function TrimStart(s: String): (r: String)
    ensures |r| <= |s| && r == s[|s| - |r|..]
    ensures forall i :: 0 <= i < |s| - |r| ==> IsWhitespace(s[i])
    ensures r == [] || !IsWhitespace(r[0])
  {
    DropWhile(s, IsWhitespace)
  }

  /** `s.trimEnd()`: drops the trailing whitespace. */
  function TrimEnd(s: String): (r: String)
    ensures |r| <= |s| && r == s[..|r|]
    ensures forall i :: |r| <= i < |s| ==> IsWhitespace(s[i])
    ensures r == [] || !IsWhitespace(r[|r| - 1])
  {
    if |s| > 0 && IsWhitespace(s[|s| - 1]) then TrimEnd(s[..|s| - 1]) else s
  }

  /** `s.trim()`: the result is the infix of `s` left once all leading and
      trailing whitespace is removed; it is empty exactly when `s` is all whitespace. */
  function Trim(s: String): (r: String)
    ensures Trimmed(r)
    ensures exists a :: StrippedAt(s, r, a)
    ensures r == [] <==> AllWhitespace(s)
  {
    var t := TrimStart(s);
    var r := TrimEnd(t);
    StripBothEnds(s, t, r);
    r
  }

  lemma StripBothEnds(s: String, t: String, r: String)
    requires |t| <= |s| && t == s[|s| - |t|..]
    requires forall i :: 0 <= i < |s| - |t| ==> IsWhitespace(s[i])
    requires t == [] || !IsWhitespace(t[0])
    requires |r| <= |t| && r == t[..|r|]
    requires forall i :: |r| <= i < |t| ==> IsWhitespace(t[i])
    requires r == [] || !IsWhitespace(r[|r| - 1])
    ensures Trimmed(r) && StrippedAt(s, r, |s| - |t|)
    ensures r == [] <==> AllWhitespace(s)
  {
    var a := |s| - |t|;
    assert r == s[a..a + |r|];
    assert forall i :: a + |r| <= i < |s| ==> s[i] == t[i - a];
    assert r != [] ==> s[a] == r[0];
  }

  /** `r` is the infix of `s` starting at `a`, and everything of `s` outside it is whitespace. */
  predicate StrippedAt(s: String, r: String, a: int) {
    && 0 <= a <= |s| - |r| && r == s[a..a + |r|]
    && (forall i :: 0 <= i < a ==> IsWhitespace(s[i]))
    && (forall i :: a + |r| <= i < |s| ==> IsWhitespace(s[i]))
  }

  /** Trimming a string that starts with a non-whitespace prefix ending in
      non-whitespace keeps that prefix intact. */
  lemma {:induction false} TrimKeepsPrefix(x: String, y: String)
    requires |x| > 0 && !IsWhitespace(x[0]) && !IsWhitespace(x[|x| - 1])
    ensures |x| <= |Trim(x + y)| && Trim(x + y)[..|x|] == x
  {
    var s := x + y;
    assert TrimStart(s) == s;
    TrimEndKeepsPrefix(s, |x|);
  }

  lemma {:induction false} TrimEndKeepsPrefix(s: String, n: nat)
    requires 0 < n <= |s| && !IsWhitespace(s[n - 1])
    ensures n <= |TrimEnd(s)| && TrimEnd(s)[..n] == s[..n]
    decreases |s|
  {
    if IsWhitespace(s[|s| - 1]) {
      assert n < |s|;
      TrimEndKeepsPrefix(s[..|s| - 1], n);
      assert s[..|s| - 1][..n] == s[..n];
    }
  }

  /** Trimming removes whitespace only: every other character is kept, in order. */
  lemma TrimKeepsContent(s: String)
    ensures Without(Trim(s), IsWhitespace) == Without(s, IsWhitespace)
  {
    var r := Trim(s);
    var a :| StrippedAt(s, r, a);
    StrippedKeepsContent(s, r, a);
  }

  lemma StrippedKeepsContent(s: String, r: String, a: int)
    requires StrippedAt(s, r, a)
    ensures Without(r, IsWhitespace) == Without(s, IsWhitespace)
  {
    var front, back := s[..a], s[a + |r|..];
    assert s == front + r + back;
    assert forall i :: 0 <= i < |back| ==> back[i] == s[a + |r| + i];
    DroppedEnds(front, r, back, IsWhitespace);
  }

  /** Dropped characters on either side of a string add nothing to its content. */
  lemma DroppedEnds(front: String, r: String, back: String, drop: char -> bool)
    requires forall i :: 0 <= i < |front| ==> drop(front[i])
    requires forall i :: 0 <= i < |back| ==> drop(back[i])
    ensures Without(front + r + back, drop) == Without(r, drop)
  {
    WithoutAppend(front + r, back, drop);
    WithoutAppend(front, r, drop);
    WithoutOfDropped(front, drop);
    WithoutOfDropped(back, drop);
  }

  /** Trimming changes a string exactly when it has whitespace at an end. */
  lemma TrimmedUnchanged(s: String)
    ensures Trim(s) == s <==> Trimmed(s)
  {
    if Trimmed(s) {
      TrimOfTrimmed(s);
    }
  }

  /** Trimming is the identity on a string with no whitespace at its ends. */
  lemma TrimOfTrimmed(s: String)
    requires Trimmed(s)
    ensures Trim(s) == s
  {
  }

  // ---------------------------------------------------------------------------
  // The characters outside a class, in order

  /** `s` with every character satisfying `drop` removed; the rest keep their order. */
  function Without(s: String, drop: char -> bool): (r: String)
    ensures |r| <= |s|
    ensures forall i :: 0 <= i < |r| ==> !drop(r[i])
  {
    if |s| == 0 then [] else (if drop(s[0]) then [] else [s[0]]) + Without(s[1..], drop)
  }

  lemma {:induction false} WithoutAppend(a: String, b: String, drop: char -> bool)
    ensures Without(a + b, drop) == Without(a, drop) + Without(b, drop)
    decreases |a|
  {
    if |a| > 0 {
      assert (a + b)[1..] == a[1..] + b;
      WithoutAppend(a[1..], b, drop);
    } else {
      assert a + b == b;
    }
  }

  /** A string made only of dropped characters leaves nothing. */
  lemma {:induction false} WithoutOfDropped(s: String, drop: char -> bool)
    requires forall i :: 0 <= i < |s| ==> drop(s[i])
    ensures Without(s, drop) == []
    decreases |s|
  {
    if |s| > 0 {
      WithoutOfDropped(s[1..], drop);
    }
  }

  /** Dropping a class and then a wider one is dropping the wider one. */
  lemma {:induction false} WithoutWider(s: String, narrow: char -> bool, wide: char -> bool)
    requires forall c :: narrow(c) ==> wide(c)
    ensures Without(Without(s, narrow), wide) == Without(s, wide)
    decreases |s|
  {
    if |s| > 0 {
      var head := if narrow(s[0]) then [] else [s[0]];
      WithoutAppend(head, Without(s[1..], narrow), wide);
      WithoutWider(s[1..], narrow, wide);
    }
  }

  /** Two strings with the same characters outside a class of whitespace
      have the same non-whitespace characters. */
  lemma SameContent(x: String, y: String, narrow: char -> bool)
    requires forall c :: narrow(c) ==> IsWhitespace(c)
    requires Without(x, narrow) == Without(y, narrow)
    ensures Without(x, IsWhitespace) == Without(y, IsWhitespace)
  {
    WithoutWider(x, narrow, IsWhitespace);
    WithoutWider(y, narrow, IsWhitespace);
  }

  // ---------------------------------------------------------------------------
  // Decimal rendering of non-negative integers (`${n}` in a template literal)

  predicate IsDigit(c: char) {
    '0' <= c <= '9'
  }

  predicate AllDigits(s: String) {
    forall i :: 0 <= i < |s| ==> IsDigit(s[i])
  }

  function DigitChar(d: nat): (c: char)
    requires d < 10
    ensures IsDigit(c)
  {
    "0123456789"[d]
  }

  function DigitValue(c: char): (d: nat)
    requires IsDigit(c)
    ensures d < 10
  {
    (c as int - '0' as int) as nat
  }

  /** The decimal form of `n`, as JavaScript prints an integral number. */
  function NatToString(n: nat): (r: String)
    ensures |r| > 0 && AllDigits(r)
  {
    if n < 10 then [DigitChar(n)] else NatToString(n / 10) + [DigitChar(n % 10)]
  }

  /** Reads a string of decimal digits back as a number. */
  function ParseNat(s: String): nat
    requires AllDigits(s)
  {
    if |s| == 0 then 0 else 10 * ParseNat(s[..|s| - 1]) + DigitValue(s[|s| - 1])
  }

  /** Reading back the decimal form of a number gives the number. */
  lemma {:induction false} ParseNatToString(n: nat)
    ensures ParseNat(NatToString(n)) == n
  {
    var s := NatToString(n);
    if n < 10 {
      assert DigitValue(DigitChar(n)) == n;
    } else {
      assert s[..|s| - 1] == NatToString(n / 10);
      assert DigitValue(DigitChar(n % 10)) == n % 10;
      ParseNatToString(n / 10);
    }
  }

  /** Distinct numbers have distinct decimal forms. */
  lemma NatToStringInjective(m: nat, n: nat)
    requires NatToString(m) == NatToString(n)
    ensures m == n
  {
    ParseNatToString(m);
    ParseNatToString(n);
  }

  // ---------------------------------------------------------------------------
  // Array.prototype.join

  /** `parts.join(sep)`: the parts in order with `sep` between neighbours. */
  function Join(parts: seq<String>, sep: String): (r: String)
    ensures |parts| == 0 ==> r == []
    ensures |parts| > 0 ==> |r| >= |parts[0]| && r[..|parts[0]|] == parts[0]
    ensures |parts| == 1 ==> r == parts[0]
  {
    if |parts| == 0 then []
    else if |parts| == 1 then parts[0]
    else parts[0] + sep + Join(parts[1..], sep)
  }

  /** Joining one more part appends the separator and that part: the parts
      appear in order, each pair of neighbours separated by `sep`. */
  lemma {:induction false} JoinSnoc(parts: seq<String>, p: String, sep: String)
    requires |parts| > 0
    ensures Join(parts + [p], sep) == Join(parts, sep) + sep + p
    decreases |parts|
  {
    var all := parts + [p];
    if |parts| == 1 {
      assert all[1..] == [p];
    } else {
      assert all[1..] == parts[1..] + [p];
      JoinSnoc(parts[1..], p, sep);
    }
  }
}
