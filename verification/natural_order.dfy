/** The natural sort order of merge.py (`natural_key`, merge.py:95-97):
    a file name is cut into alternating runs of non-digits and digits, as
    `re.split(r"(\d+)", s)` does, and each run becomes a key element, the
    digit runs as numbers and the others lower-cased. Names are then
    compared as Python compares lists. */
module NaturalOrder {
  import opened Strings

  /** One key element: a lower-cased text run or the value of a digit run. */
  datatype Token = Text(s: string) | Num(n: nat)

  // ---------------------------------------------------------------------
  // re.split(r"(\d+)", s)
  // ---------------------------------------------------------------------

  /** Length of the longest prefix of `s` without a digit. */
  function NonDigitRun(s: string): (n: nat)
    ensures n <= |s| && NoDigits(s[..n])
    ensures n < |s| ==> IsDigit(s[n])
    ensures s != [] && !IsDigit(s[0]) ==> n >= 1
    decreases |s|
  {
    if s == [] || IsDigit(s[0]) then 0
    else
      var m := NonDigitRun(s[1..]);
      assert s[..1 + m] == [s[0]] + s[1..][..m];
      1 + m
  }

  /** Length of the longest prefix of `s` made of digits. */
  function DigitRun(s: string): (n: nat)
    ensures n <= |s| && AllDigits(s[..n])
    ensures n < |s| ==> !IsDigit(s[n])
    ensures s != [] && IsDigit(s[0]) ==> n >= 1
    decreases |s|
  {
    if s == [] || !IsDigit(s[0]) then 0
    else
      var m := DigitRun(s[1..]);
      assert s[..1 + m] == [s[0]] + s[1..][..m];
      1 + m
  }

  /** `re.split(r"(\d+)", s)`: the text between maximal digit runs, with
      the runs kept at the odd positions. */
  function Split(s: string): seq<string>
    decreases |s|
  {
    var a := NonDigitRun(s);
    if a == |s| then [s]
    else
      var d := DigitRun(s[a..]);
      [s[..a], s[a..a + d]] + Split(s[a + d..])
  }

  function Concat(p: seq<string>): string
    decreases |p|
  {
    if p == [] then [] else p[0] + Concat(p[1..])
  }

  /** The shape of any result of `re.split(r"(\d+)", s)`: an odd number of
      pieces; digit-free pieces at the even positions, non-empty digit runs
      at the odd ones; and the digit-free pieces between two runs are not
      empty (otherwise the two runs would be one). */
  predicate WellSplit(p: seq<string>)
    decreases |p|
  {
    |p| >= 1 && NoDigits(p[0]) &&
    (|p| > 1 ==>
      |p| >= 3 && IsDigitString(p[1]) && (|p| > 3 ==> p[2] != []) && WellSplit(p[2..]))
  }

  lemma ConcatCons(a: string, d: string, q: seq<string>)
    ensures Concat([a, d] + q) == a + d + Concat(q)
  {
    var p := [a, d] + q;
    assert p[1..][1..] == q;
    assert Concat(p) == a + Concat(p[1..]);
    assert Concat(p[1..]) == d + Concat(q);
  }

  lemma WellSplitCons(a: string, d: string, q: seq<string>)
    requires NoDigits(a) && IsDigitString(d) && WellSplit(q)
    requires |q| > 1 ==> q[0] != []
    ensures WellSplit([a, d] + q)
  {
    var p := [a, d] + q;
    assert p[2..] == q;
  }

  lemma ThreeParts(s: string, i: nat, j: nat)
    requires i <= j <= |s|
    ensures s == s[..i] + s[i..j] + s[j..]
  {
    assert s == s[..i] + s[i..];
    assert s[i..] == s[i..j] + s[j..];
  }

  /** A digit run that starts at a digit is a non-empty digit string. */
  lemma DigitRunAtDigit(t: string)
    requires t != [] && IsDigit(t[0])
    ensures 1 <= DigitRun(t) && IsDigitString(t[..DigitRun(t)])
  {
  }

  /** One step of `Split`: after the first non-digit run comes a non-empty
      digit run, followed by nothing or by a non-digit. */
  lemma SplitStep(s: string, a: nat, d: nat)
    requires a == NonDigitRun(s) < |s| && d == DigitRun(s[a..])
    ensures 1 <= d && a + d <= |s|
    ensures IsDigitString(s[a..a + d])
    ensures a + d < |s| ==> !IsDigit(s[a + d..][0])
  {
    var t := s[a..];
    assert t[0] == s[a];
    DigitRunAtDigit(t);
    SliceOfSuffix(s, a, d);
  }

  lemma SliceOfSuffix(s: string, a: nat, d: nat)
    requires a + d <= |s|
    ensures s[a..a + d] == s[a..][..d]
    ensures a + d < |s| ==> s[a + d..][0] == s[a..][d]
  {
  }

  lemma SplitUnfold(s: string, a: nat, d: nat)
    requires a == NonDigitRun(s) < |s| && d == DigitRun(s[a..])
    ensures Split(s) == [s[..a], s[a..a + d]] + Split(s[a + d..])
  {
    var p := Split(s);  // the unfolding the ensures names
  }

  /** `Split` has that shape and loses nothing: joining the pieces gives
      back the input. */
  lemma {:induction false} SplitCorrect(s: string)
    ensures WellSplit(Split(s)) && Concat(Split(s)) == s
    ensures Split(s)[0] == s[..NonDigitRun(s)]
    decreases |s|
  {
    var a := NonDigitRun(s);
    if a == |s| {
      assert s[..a] == s;
      assert Concat([s]) == s + Concat([]);
    } else {
      var d := DigitRun(s[a..]);
      SplitStep(s, a, d);
      SplitUnfold(s, a, d);
      ThreeParts(s, a, a + d);
      var rest := s[a + d..];
      SplitCorrect(rest);
      var q := Split(rest);
      WellSplitCons(s[..a], s[a..a + d], q);
      ConcatCons(s[..a], s[a..a + d], q);
    }
  }

  lemma {:induction false} ConcatStart(q: seq<string>)
    requires q != [] && q[0] != []
    ensures Concat(q) != [] && Concat(q)[0] == q[0][0]
  {
    assert Concat(q) == q[0] + Concat(q[1..]);
  }

  /** A digit-free prefix followed by a digit or by nothing is exactly
      the first non-digit run. */
  lemma {:induction false} NonDigitRunOf(x: string, y: string)
    requires NoDigits(x) && (y == [] || IsDigit(y[0]))
    ensures NonDigitRun(x + y) == |x|
    decreases |x|
  {
    if x == [] {
      assert x + y == y;
    } else {
      assert (x + y)[1..] == x[1..] + y;
      NonDigitRunOf(x[1..], y);
    }
  }

  /** A run of digits followed by a non-digit or by nothing is exactly
      the first digit run. */
  lemma {:induction false} DigitRunOf(x: string, y: string)
    requires AllDigits(x) && (y == [] || !IsDigit(y[0]))
    ensures DigitRun(x + y) == |x|
    decreases |x|
  {
    if x == [] {
      assert x + y == y;
    } else {
      assert (x + y)[1..] == x[1..] + y;
      DigitRunOf(x[1..], y);
    }
  }

  /** `Split` is the only well-shaped way to cut `s`: whatever cuts `s`
      into that shape is `re.split`'s answer. */
  lemma {:induction false} SplitUnique(p: seq<string>, s: string)
    requires WellSplit(p) && Concat(p) == s
    ensures Split(s) == p
    decreases |p|
  {
    assert Concat(p) == p[0] + Concat(p[1..]);
    if |p| == 1 {
      assert Concat(p[1..]) == [];
      assert s == p[0] + [];
      NonDigitRunOf(s, []);
      assert s[..|s|] == s;
    } else {
      var a, dd, q := p[0], p[1], p[2..];
      ConcatCons(a, dd, q);
      assert p == [a, dd] + q;
      var r := Concat(q);
      if q[0] != [] {
        ConcatStart(q);
      } else {
        assert |q| == 1;
        assert Concat(q) == q[0] + Concat(q[1..]);
        assert q[1..] == [];
      }
      assert s == a + (dd + r);
      NonDigitRunOf(a, dd + r);
      var x := s[|a|..];
      assert x == dd + r;
      DigitRunOf(dd, r);
      assert s[|a| + |dd|..] == r;
      assert s[..|a|] == a;
      assert s[|a|..|a| + |dd|] == dd;
      SplitUnique(q, r);
    }
  }

  // ---------------------------------------------------------------------
  // natural_key
  // ---------------------------------------------------------------------

  /** `int(t) if t.isdigit() else t.lower()` */
  function TokenOf(t: string): Token {
    if IsDigitString(t) then Num(DigitsValue(t)) else Text(Lower(t))
  }

  /** `natural_key(s)` */
  function NaturalKey(s: string): seq<Token> {
    Tokens(Split(s))
  }

  /** The key elements of the pieces, in order. */
  function Tokens(p: seq<string>): seq<Token> {
    seq(|p|, i requires 0 <= i < |p| => TokenOf(p[i]))
  }

  lemma {:induction false} WellSplitPositions(p: seq<string>)
    requires WellSplit(p)
    ensures |p| % 2 == 1
    ensures forall i :: 0 <= i < |p| ==>
      if i % 2 == 0 then NoDigits(p[i]) else IsDigitString(p[i])
    decreases |p|
  {
    if |p| > 1 {
      WellSplitPositions(p[2..]);
      forall i | 2 <= i < |p|
        ensures if i % 2 == 0 then NoDigits(p[i]) else IsDigitString(p[i])
      {
        assert p[i] == p[2..][i - 2];
      }
    }
  }

  /** A key alternates: text at the even positions, numbers at the odd
      ones, and it has an odd length, so it starts and ends with text. */
  predicate Alternating(k: seq<Token>) {
    |k| % 2 == 1 && forall i :: 0 <= i < |k| ==> (k[i].Text? <==> i % 2 == 0)
  }

  lemma NaturalKeyAlternates(s: string)
    ensures Alternating(NaturalKey(s))
  {
    var p := Split(s);
    SplitCorrect(s);
    WellSplitPositions(p);
    var k := NaturalKey(s);
    forall i | 0 <= i < |k| ensures k[i].Text? <==> i % 2 == 0 {
      if i % 2 == 0 && p[i] != [] {
        assert !IsDigit(p[i][0]);
      }
    }
  }

  // ---------------------------------------------------------------------
  // Comparison, as Python compares strings, ints and lists
  // ---------------------------------------------------------------------

  /** `a < b` on strings: lexicographic by code point. */
  predicate StrLess(a: string, b: string)
    decreases |a|
  {
    if a == [] then b != []
    else if b == [] then false
    else if a[0] != b[0] then a[0] < b[0]
    else StrLess(a[1..], b[1..])
  }

  /** `x < y` on two key elements. Python raises TypeError on a string
      against an int; that case is false here, and `SameShape` shows it is
      never reached when two natural keys are compared. */
  predicate TokenLess(x: Token, y: Token) {
    match (x, y)
    case (Text(s), Text(t)) => StrLess(s, t)
    case (Num(m), Num(n)) => m < n
    case _ => false
  }

  /** `a < b` on lists: decided by the first position where they differ,
      and a proper prefix is smaller. */
  predicate KeyLess(a: seq<Token>, b: seq<Token>)
    decreases |a|
  {
    if a == [] then b != []
    else if b == [] then false
    else if a[0] != b[0] then TokenLess(a[0], b[0])
    else KeyLess(a[1..], b[1..])
  }

  /** `natural_key(a) < natural_key(b)` */
  predicate NameLess(a: string, b: string) {
    KeyLess(NaturalKey(a), NaturalKey(b))
  }

  /** Two keys hold elements of the same kind at every common position. */
  predicate SameShape(a: seq<Token>, b: seq<Token>) {
    forall i :: 0 <= i < |a| && i < |b| ==> (a[i].Text? <==> b[i].Text?)
  }

  /** Comparing two natural keys never sets a string against an int, so
      `list.sort(key=natural_key)` cannot raise TypeError. */
  lemma NaturalKeysComparable(a: string, b: string)
    ensures SameShape(NaturalKey(a), NaturalKey(b))
  {
    NaturalKeyAlternates(a);
    NaturalKeyAlternates(b);
  }

  lemma {:induction false} StrLessIrreflexive(a: string)
    ensures !StrLess(a, a)
    decreases |a|
  {
    if a != [] { StrLessIrreflexive(a[1..]); }
  }

  lemma {:induction false} StrLessTransitive(a: string, b: string, c: string)
    requires StrLess(a, b) && StrLess(b, c)
    ensures StrLess(a, c)
    decreases |a|
  {
    if a != [] && a[0] == b[0] && b[0] == c[0] {
      StrLessTransitive(a[1..], b[1..], c[1..]);
    }
  }

  lemma {:induction false} StrLessTotal(a: string, b: string)
    requires a != b
    ensures StrLess(a, b) || StrLess(b, a)
    decreases |a|
  {
    if a != [] && b != [] && a[0] == b[0] {
      assert a == [a[0]] + a[1..] && b == [b[0]] + b[1..];
      StrLessTotal(a[1..], b[1..]);
    }
  }

  lemma TokenLessIrreflexive(x: Token)
    ensures !TokenLess(x, x)
  {
    if x.Text? { StrLessIrreflexive(x.s); }
  }

  lemma TokenLessTransitive(x: Token, y: Token, z: Token)
    requires TokenLess(x, y) && TokenLess(y, z)
    ensures TokenLess(x, z)
  {
    if x.Text? { StrLessTransitive(x.s, y.s, z.s); }
  }

  /** No key is smaller than itself. */
  lemma {:induction false} KeyLessIrreflexive(a: seq<Token>)
    ensures !KeyLess(a, a)
    decreases |a|
  {
    if a != [] { KeyLessIrreflexive(a[1..]); }
  }

  /** The key order is transitive. */
  lemma {:induction false} KeyLessTransitive(a: seq<Token>, b: seq<Token>, c: seq<Token>)
    requires KeyLess(a, b) && KeyLess(b, c)
    ensures KeyLess(a, c)
    decreases |a|
  {
    if a != [] && c != [] {
      if a[0] != b[0] && b[0] != c[0] {
        TokenLessTransitive(a[0], b[0], c[0]);
        TokenLessIrreflexive(a[0]);
      } else if a[0] == b[0] && b[0] == c[0] {
        KeyLessTransitive(a[1..], b[1..], c[1..]);
      }
    }
  }

  /** Two different keys of the same shape are always ordered one way or
      the other: the key order is total on natural keys. */
  lemma {:induction false} KeyLessTotal(a: seq<Token>, b: seq<Token>)
    requires SameShape(a, b) && a != b
    ensures KeyLess(a, b) || KeyLess(b, a)
    decreases |a|
  {
    if a != [] && b != [] {
      if a[0] == b[0] {
        assert a == [a[0]] + a[1..] && b == [b[0]] + b[1..];
        assert SameShape(a[1..], b[1..]) by {
          forall i | 0 <= i < |a[1..]| && i < |b[1..]|
            ensures a[1..][i].Text? <==> b[1..][i].Text?
          {
            assert a[1..][i] == a[i + 1] && b[1..][i] == b[i + 1];
          }
        }
        KeyLessTotal(a[1..], b[1..]);
      } else {
        assert a[0].Text? <==> b[0].Text?;
        if a[0].Text? {
          StrLessTotal(a[0].s, b[0].s);
        }
      }
    }
  }

  /** Natural keys are totally ordered: two names either have equal keys
      or one sorts strictly before the other. */
  lemma NameOrderTotal(a: string, b: string)
    ensures NaturalKey(a) == NaturalKey(b) || NameLess(a, b) || NameLess(b, a)
  {
    NaturalKeysComparable(a, b);
    if NaturalKey(a) != NaturalKey(b) {
      KeyLessTotal(NaturalKey(a), NaturalKey(b));
    }
  }

  // ---------------------------------------------------------------------
  // Names with one number in them
  // ---------------------------------------------------------------------

  /** The key of a name is the token of each piece `re.split` cuts. */
  lemma KeyOfParts(s: string, p: seq<string>)
    requires Split(s) == p
    ensures |NaturalKey(s)| == |p|
    ensures forall i :: 0 <= i < |p| ==> NaturalKey(s)[i] == TokenOf(p[i])
  {
  }

  lemma TokenOfText(t: string)
    requires NoDigits(t)
    ensures TokenOf(t) == Text(Lower(t))
  {
    if t != [] {
      assert !IsDigit(t[0]);
    }
  }

  /** `re.split` takes a leading non-digit run and the digit run after it
      off the front of a name. */
  lemma SplitCons(pre: string, digits: string, rest: string)
    requires NoDigits(pre) && IsDigitString(digits) && (rest == [] || !IsDigit(rest[0]))
    ensures Split(pre + digits + rest) == [pre, digits] + Split(rest)
  {
    var s := pre + digits + rest;
    var a, d := |pre|, |digits|;
    assert s == pre + (digits + rest);
    NonDigitRunOf(pre, digits + rest);
    assert s[a..] == digits + rest;
    DigitRunOf(digits, rest);
    SplitUnfold(s, a, d);
    assert s[..a] == pre && s[a..a + d] == digits && s[a + d..] == rest;
  }

  /** A name without digits is a single piece. */
  lemma SplitNoDigits(s: string)
    requires NoDigits(s)
    ensures Split(s) == [s]
  {
    NonDigitRunOf(s, []);
    assert s + [] == s;
  }

  /** `re.split` cuts a name with one digit run into its three parts. */
  lemma NumberedSplit(pre: string, digits: string, post: string)
    requires NoDigits(pre) && IsDigitString(digits) && NoDigits(post)
    ensures Split(pre + digits + post) == [pre, digits, post]
  {
    if post != [] {
      assert !IsDigit(post[0]);
    }
    SplitCons(pre, digits, post);
    SplitNoDigits(post);
  }

  /** The key of a name made of a digit-free prefix, one digit run and a
      digit-free suffix. */
  lemma NumberedNameKey(pre: string, digits: string, post: string)
    requires NoDigits(pre) && IsDigitString(digits) && NoDigits(post)
    ensures NaturalKey(pre + digits + post)
         == [Text(Lower(pre)), Num(DigitsValue(digits)), Text(Lower(post))]
  {
    NumberedSplit(pre, digits, post);
    KeyOfParts(pre + digits + post, [pre, digits, post]);
    TokenOfText(pre);
    TokenOfText(post);
    assert TokenOf(digits) == Num(DigitsValue(digits));
  }


  /** A digit run `d` with no digit on either side of it: `re.split` cuts
      `pre` and `post` as it would on their own, with `d` between them. */
  lemma {:induction false} SplitAround(pre: string, d: string, post: string)
    requires pre == [] || !IsDigit(pre[|pre| - 1])
    requires IsDigitString(d) && (post == [] || !IsDigit(post[0]))
    ensures Split(pre + d + post) == Split(pre) + [d] + Split(post)
    decreases |pre|
  {
    if NonDigitRun(pre) == |pre| {
      SplitAroundBase(pre, d, post);
    } else {
      var h, dd, rest := LeadingRuns(pre);
      SplitAround(rest, d, post);
      SplitAroundStep(h, dd, rest, d, post);
    }
  }

  /** A name with a digit in it that ends in a non-digit starts with a
      non-digit run and a digit run, and more text follows them. */
  lemma LeadingRuns(s: string) returns (h: string, dd: string, rest: string)
    requires NonDigitRun(s) < |s| && !IsDigit(s[|s| - 1])
    ensures s == h + dd + rest && NoDigits(h) && IsDigitString(dd)
    ensures rest != [] && !IsDigit(rest[0]) && !IsDigit(rest[|rest| - 1])
  {
    var a := NonDigitRun(s);
    var n := DigitRun(s[a..]);
    SplitStep(s, a, n);
    h, dd, rest := CutRuns(s, a, n);
  }

  lemma CutRuns(s: string, a: nat, n: nat) returns (h: string, dd: string, rest: string)
    requires a + n <= |s| && NoDigits(s[..a]) && IsDigitString(s[a..a + n])
    requires a + n < |s| ==> !IsDigit(s[a + n..][0])
    requires s != [] && !IsDigit(s[|s| - 1])
    ensures s == h + dd + rest && NoDigits(h) && IsDigitString(dd)
    ensures rest != [] && !IsDigit(rest[0]) && !IsDigit(rest[|rest| - 1])
  {
    h, dd, rest := s[..a], s[a..a + n], s[a + n..];
    forall k | a <= k < a + n ensures IsDigit(s[k]) {
      assert s[k] == dd[k - a];
    }
    ThreeParts(s, a, a + n);
    assert rest[|rest| - 1] == s[|s| - 1];
  }

  lemma SplitAroundBase(pre: string, d: string, post: string)
    requires NonDigitRun(pre) == |pre|
    requires IsDigitString(d) && (post == [] || !IsDigit(post[0]))
    ensures Split(pre + d + post) == Split(pre) + [d] + Split(post)
  {
    assert pre[..|pre|] == pre;
    SplitCons(pre, d, post);
    SplitNoDigits(pre);
  }

  /** The inductive step of `SplitAround`: a non-digit run and a digit run
      in front of `rest` are cut off the same way with or without what
      follows `rest`. */
  lemma SplitAroundStep(h: string, dd: string, rest: string, d: string, post: string)
    requires NoDigits(h) && IsDigitString(dd) && rest != [] && !IsDigit(rest[0])
    requires Split(rest + d + post) == Split(rest) + [d] + Split(post)
    ensures Split(h + dd + rest + d + post) == Split(h + dd + rest) + [d] + Split(post)
  {
    var t := rest + d + post;
    assert t[0] == rest[0];
    Regroup(h + dd, rest, d, post);
    SplitCons(h, dd, t);
    SplitCons(h, dd, rest);
    Regroup([h, dd], Split(rest), [d], Split(post));
  }

  lemma Regroup<T>(a: seq<T>, b: seq<T>, c: seq<T>, e: seq<T>)
    ensures a + b + c + e == a + (b + c + e)
  {
  }

  /** ... and the key of such a name is the key of `pre`, the number, and
      the key of `post`. */
  lemma NaturalKeyAround(pre: string, d: string, post: string)
    requires pre == [] || !IsDigit(pre[|pre| - 1])
    requires IsDigitString(d) && (post == [] || !IsDigit(post[0]))
    ensures NaturalKey(pre + d + post)
         == NaturalKey(pre) + [Num(DigitsValue(d))] + NaturalKey(post)
  {
    SplitAround(pre, d, post);
    TokensAround(Split(pre), d, Split(post));
  }

  lemma TokensAround(p: seq<string>, d: string, q: seq<string>)
    requires IsDigitString(d)
    ensures Tokens(p + [d] + q) == Tokens(p) + [Num(DigitsValue(d))] + Tokens(q)
  {
    var k := Tokens(p + [d] + q);
    forall i | 0 <= i < |k|
      ensures k[i] == (Tokens(p) + [Num(DigitsValue(d))] + Tokens(q))[i]
    {
      if i == |p| {
        assert (p + [d] + q)[i] == d;
      } else if i < |p| {
        assert (p + [d] + q)[i] == p[i];
      } else {
        assert (p + [d] + q)[i] == q[i - |p| - 1];
      }
    }
  }

  /** Lists that share a prefix compare as their remainders do. */
  lemma {:induction false} KeyLessCommonPrefix(a: seq<Token>, b: seq<Token>, c: seq<Token>)
    ensures KeyLess(a + b, a + c) == KeyLess(b, c)
    decreases |a|
  {
    if a != [] {
      assert (a + b)[1..] == a[1..] + b && (a + c)[1..] == a[1..] + c;
      KeyLessCommonPrefix(a[1..], b, c);
    } else {
      assert a + b == b && a + c == c;
    }
  }

  /** Two keys that differ in one element compare as that element does. */
  lemma KeyLessAt(a: seq<Token>, x: Token, y: Token, c: seq<Token>)
    ensures KeyLess(a + [x] + c, a + [y] + c) <==> TokenLess(x, y)
  {
    Regroup(a, [x], c, []);
    Regroup(a, [y], c, []);
    assert a + [x] + c + [] == a + [x] + c && [x] + c + [] == [x] + c;
    assert a + [y] + c + [] == a + [y] + c && [y] + c + [] == [y] + c;
    KeyLessCommonPrefix(a, [x] + c, [y] + c);
    assert ([x] + c)[1..] == c && ([y] + c)[1..] == c;
    KeyLessIrreflexive(c);
    TokenLessIrreflexive(x);
  }

  /** Names that differ only in one number sort by that number, whatever
      other numbers they hold before or after it: "page_2.png" comes before
      "page_10.png", and "vol2_page_3.png" before "vol2_page_10.png". */
  lemma NumberedNamesOrder(pre: string, d1: string, d2: string, post: string)
    requires pre == [] || !IsDigit(pre[|pre| - 1])
    requires IsDigitString(d1) && IsDigitString(d2)
    requires post == [] || !IsDigit(post[0])
    ensures NameLess(pre + d1 + post, pre + d2 + post) <==> DigitsValue(d1) < DigitsValue(d2)
  {
    NaturalKeyAround(pre, d1, post);
    NaturalKeyAround(pre, d2, post);
    KeyLessAt(NaturalKey(pre), Num(DigitsValue(d1)), Num(DigitsValue(d2)), NaturalKey(post));
  }

  /** Unpadded page numbers sort by value, not by their text:
      "page_2.png" comes before "page_10.png". */
  lemma UnpaddedPageNamesOrder(i: nat, j: nat)
    ensures NameLess("page_" + FormatInt(i, 1) + ".png", "page_" + FormatInt(j, 1) + ".png") <==> i < j
  {
    FormatNonNegative(i, 1);
    FormatNonNegative(j, 1);
    NumberedNamesOrder("page_", FormatInt(i, 1), FormatInt(j, 1), ".png");
  }
}
