/**
 * The handful of Python `str` operations the receptionist backend relies on:
 * `lower()`, `strip()`, `split()`, `split(sep)`, `sep.join(parts)` and the
 * substring test `p in s`. Strings are sequences of Unicode scalar values.
 */
module Text {
  import opened Wrappers

  /** Python's `str.isspace()` for a single character (the set `strip()` and `split()` use). */
  predicate IsSpace(c: char) {
    || c == ' '
    || ('\t' <= c <= '\r')
    || ('\U{1C}' <= c <= '\U{1F}')
    || c == '\U{85}' || c == '\U{A0}' || c == '\U{1680}'
    || ('\U{2000}' <= c <= '\U{200A}')
    || c == '\U{2028}' || c == '\U{2029}' || c == '\U{202F}' || c == '\U{205F}' || c == '\U{3000}'
  }

  predicate NoSpace(s: string) {
    forall i :: 0 <= i < |s| ==> !IsSpace(s[i])
  }

  predicate AllSpace(s: string) {
    forall i :: 0 <= i < |s| ==> IsSpace(s[i])
  }

  // ---------------------------------------------------------------- lower()

  predicate IsUpper(c: char) {
    'A' <= c <= 'Z'
  }

  function LowerChar(c: char): char {
    if IsUpper(c) then (c as int + 32) as char else c
  }

  predicate NoUpper(s: string) {
    forall i :: 0 <= i < |s| ==> !IsUpper(s[i])
  }

  /** `s.lower()`, restricted to the ASCII letters. */
  function Lower(s: string): (r: string)
    ensures |r| == |s| && NoUpper(r)
    ensures forall i :: 0 <= i < |s| ==>
      r[i] == s[i] || (IsUpper(s[i]) && r[i] as int == s[i] as int + 32)
  {
    seq(|s|, i requires 0 <= i < |s| => LowerChar(s[i]))
  }

  /** Lower-casing leaves a string without capitals as it is, so it is idempotent. */
  lemma LowerOfLowercase(s: string)
    requires NoUpper(s)
    ensures Lower(s) == s
  {
  }

  lemma LowerIdempotent(s: string)
    ensures Lower(Lower(s)) == Lower(s)
  {
    LowerOfLowercase(Lower(s));
  }

  // ---------------------------------------------------------------- strip()

  /** `s.lstrip()`: `r` is what is left after the longest all-whitespace prefix. */
  function TrimStart(s: string): (r: string)
    ensures |r| <= |s| && r == s[|s| - |r|..]
    ensures AllSpace(s[..|s| - |r|])
    ensures r == [] || !IsSpace(r[0])
    decreases |s|
  {
    if s != [] && IsSpace(s[0]) then TrimStart(s[1..]) else s
  }

  /** `s.rstrip()`: `r` is what is left before the longest all-whitespace suffix. */
  function TrimEnd(s: string): (r: string)
    ensures |r| <= |s| && r == s[..|r|]
    ensures AllSpace(s[|r|..])
    ensures r == [] || !IsSpace(r[|r| - 1])
    decreases |s|
  {
    if s != [] && IsSpace(s[|s| - 1]) then TrimEnd(s[..|s| - 1]) else s
  }

  /** `s.strip()`. */
  function Strip(s: string): (r: string)
    ensures |r| <= |s|
    ensures r == [] || (!IsSpace(r[0]) && !IsSpace(r[|r| - 1]))
  {
    TrimEnd(TrimStart(s))
  }

  /** Any split of `s` into whitespace followed by a part not starting with whitespace is the one `lstrip` makes. */
  lemma TrimStartAt(s: string, k: nat)
    requires k <= |s| && AllSpace(s[..k])
    requires k == |s| || !IsSpace(s[k])
    ensures TrimStart(s) == s[k..]
    decreases k
  {
    if k > 0 {
      assert s[..k][0] == s[0];
      assert s[1..][..k - 1] == s[..k][1..];
      assert k - 1 == |s[1..]| || s[1..][k - 1] == s[k];
      TrimStartAt(s[1..], k - 1);
      assert s[1..][k - 1..] == s[k..];
    }
  }

  /** Any split of `s` into a part not ending with whitespace followed by whitespace is the one `rstrip` makes. */
  lemma TrimEndAt(s: string, k: nat)
    requires k <= |s| && AllSpace(s[k..])
    requires k == 0 || !IsSpace(s[k - 1])
    ensures TrimEnd(s) == s[..k]
    decreases |s| - k
  {
    if k < |s| {
      var u := s[..|s| - 1];
      assert s[k..][|s| - 1 - k] == s[|s| - 1];
      assert u[k..] == s[k..][..|s| - 1 - k];
      assert k == 0 || u[k - 1] == s[k - 1];
      TrimEndAt(u, k);
      assert u[..k] == s[..k];
    } else {
      assert s[..k] == s;
    }
  }

  /** `strip()` removes exactly the surrounding whitespace: whitespace around a core that neither starts nor ends with whitespace goes, the core stays whole. */
  lemma StripPadded(pre: string, core: string, post: string)
    requires AllSpace(pre) && AllSpace(post)
    requires core == [] || (!IsSpace(core[0]) && !IsSpace(core[|core| - 1]))
    ensures Strip(pre + core + post) == core
  {
    var s := pre + core + post;
    if core == [] {
      assert s == pre + post;
      assert AllSpace(s[..|s|]) by {
        forall i | 0 <= i < |s| ensures IsSpace(s[i]) {
          if i < |pre| { assert s[i] == pre[i]; } else { assert s[i] == post[i - |pre|]; }
        }
      }
      TrimStartAt(s, |s|);
    } else {
      assert s[..|pre|] == pre;
      assert s[|pre|] == core[0];
      TrimStartAt(s, |pre|);
      var t := s[|pre|..];
      assert t == core + post;
      assert t[|core|..] == post;
      TrimEndAt(t, |core|);
      assert t[..|core|] == core;
    }
  }

  /** Stripping only removes characters: a character absent from `s` is absent from `s.strip()`. */
  lemma StripKeeps(s: string, c: char)
    requires c !in s
    ensures c !in Strip(s)
  {
    var t := TrimStart(s);
    var r := TrimEnd(t);
    forall k | 0 <= k < |r| ensures r[k] != c {
      assert r[k] == t[k] == s[|s| - |t| + k];
    }
  }

  lemma StripIdempotent(s: string)
    ensures Strip(Strip(s)) == Strip(s)
  {
    var r := Strip(s);
    TrimStartAt(r, 0);
    TrimEndAt(r, |r|);
    assert r[0..] == r && r[..|r|] == r;
  }

  // ---------------------------------------------------------------- split()

  /** The longest prefix of `t` without whitespace. */
  function Word(t: string): (w: string)
    ensures |w| <= |t| && w == t[..|w|] && NoSpace(w)
    ensures |w| == |t| || IsSpace(t[|w|])
    ensures t != [] && !IsSpace(t[0]) ==> |w| >= 1
    decreases |t|
  {
    if t == [] || IsSpace(t[0]) then [] else [t[0]] + Word(t[1..])
  }

  lemma WordAt(t: string, k: nat)
    requires k <= |t| && NoSpace(t[..k])
    requires k == |t| || IsSpace(t[k])
    ensures Word(t) == t[..k]
    decreases k
  {
    if k > 0 {
      assert t[..k][0] == t[0];
      assert t[1..][..k - 1] == t[..k][1..];
      assert k - 1 == |t[1..]| || t[1..][k - 1] == t[k];
      WordAt(t[1..], k - 1);
      assert t[..k] == [t[0]] + t[1..][..k - 1];
    }
  }

  /** `s.split()` with no separator: the maximal runs of non-whitespace, in order. */
  function Split(s: string): seq<string>
    decreases |s|
  {
    var t := TrimStart(s);
    if t == [] then [] else [Word(t)] + Split(t[|Word(t)|..])
  }

  /** Every piece of `split()` is a non-empty run without whitespace. */
  lemma {:induction false} SplitPieces(s: string)
    ensures forall i :: 0 <= i < |Split(s)| ==> Split(s)[i] != [] && NoSpace(Split(s)[i])
    decreases |s|
  {
    var t := TrimStart(s);
    if t != [] {
      var w := Word(t);
      var rest := Split(t[|w|..]);
      SplitPieces(t[|w|..]);
      var r := Split(s);
      assert r == [w] + rest;
      assert w != [] && NoSpace(w);
      forall i | 0 <= i < |r| ensures r[i] != [] && NoSpace(r[i]) {
        if i > 0 {
          assert r[i] == rest[i - 1];
        }
      }
    }
  }

  /** `sep.join(parts)`. */
  function Join(parts: seq<string>, sep: string): string
    decreases |parts|
  {
    if |parts| == 0 then ""
    else if |parts| == 1 then parts[0]
    else parts[0] + sep + Join(parts[1..], sep)
  }

  lemma JoinHead(parts: seq<string>, sep: string)
    requires |parts| >= 1 && parts[0] != []
    ensures Join(parts, sep) != [] && Join(parts, sep)[0] == parts[0][0]
  {
  }

  /** A leading word of `s` is the first piece of its `split()`. */
  lemma SplitAtWord(s: string, k: nat)
    requires 1 <= k <= |s| && NoSpace(s[..k])
    requires k == |s| || IsSpace(s[k])
    ensures Split(s) == [s[..k]] + Split(s[k..])
  {
    assert s[..k][0] == s[0];
    TrimStartAt(s, 0);
    WordAt(s, k);
  }

  /** Leading whitespace does not change `split()`. */
  lemma SplitSkipSpace(s: string)
    requires s != [] && IsSpace(s[0])
    ensures Split(s) == Split(s[1..])
  {
    assert TrimStart(s) == TrimStart(s[1..]);
  }

  lemma JoinCons(w: string, rest: seq<string>, sep: string)
    requires rest != []
    ensures Join([w] + rest, sep) == w + sep + Join(rest, sep)
  {
    assert ([w] + rest)[1..] == rest;
  }

  /** One step of the round trip: a word, a space, then the rest. */
  lemma SplitWordSpace(w: string, rest: string)
    requires w != [] && NoSpace(w)
    ensures Split(w + " " + rest) == [w] + Split(rest)
  {
    var s := w + " " + rest;
    assert s[..|w|] == w;
    assert s[|w|] == ' ';
    SplitAtWord(s, |w|);
    var tail := s[|w|..];
    assert tail == " " + rest;
    assert tail[1..] == rest;
    SplitSkipSpace(tail);
  }

  /** `split()` undoes joining whitespace-free, non-empty words with single spaces. */
  lemma {:induction false} SplitJoin(words: seq<string>)
    requires forall i :: 0 <= i < |words| ==> words[i] != [] && NoSpace(words[i])
    ensures Split(Join(words, " ")) == words
    decreases |words|
  {
    if |words| == 1 {
      var w := words[0];
      assert w[..|w|] == w && w[|w|..] == [];
      SplitAtWord(w, |w|);
    } else if |words| > 1 {
      var w, more := words[0], words[1..];
      assert words == [w] + more;
      JoinCons(w, more, " ");
      SplitWordSpace(w, Join(more, " "));
      SplitJoin(more);
    }
  }

  // ---------------------------------------------------------------- p in s

  /** `p` occurs in `s` starting at index `i`. */
  predicate OccursAt(s: string, p: string, i: int) {
    0 <= i && i + |p| <= |s| && s[i..i + |p|] == p
  }

  lemma OccursShift(s: string, p: string)
    requires s != []
    ensures forall j :: 1 <= j ==> (OccursAt(s, p, j) <==> OccursAt(s[1..], p, j - 1))
  {
    forall j | 1 <= j
      ensures OccursAt(s, p, j) <==> OccursAt(s[1..], p, j - 1)
    {
      if j + |p| <= |s| {
        var here, there := s[j..j + |p|], s[1..][j - 1..j - 1 + |p|];
        forall k | 0 <= k < |p| ensures here[k] == there[k] {
          assert s[j + k] == s[1..][j - 1 + k];
        }
        assert here == there;
      }
    }
  }

  /** `s.find(p)`: the first index at which `p` occurs in `s`, if any. */
  function IndexOf(s: string, p: string): (r: Option<nat>)
    ensures r.Some? ==> OccursAt(s, p, r.value)
    ensures r.Some? ==> forall j :: 0 <= j < r.value ==> !OccursAt(s, p, j)
    ensures r.None? ==> forall j :: 0 <= j ==> !OccursAt(s, p, j)
    decreases |s|
  {
    if |p| <= |s| && s[..|p|] == p then Some(0)
    else if s == [] then None
    else
      OccursShift(s, p);
      match IndexOf(s[1..], p)
      case Some(i) => Some(i + 1)
      case None => None
  }

  /** Python's `p in s`. */
  predicate Contains(s: string, p: string) {
    IndexOf(s, p).Some?
  }

  lemma ContainsIff(s: string, p: string)
    ensures Contains(s, p) <==> exists j :: OccursAt(s, p, j)
  {
  }

  /** Lower-casing commutes with occurrence: wherever `q` occurs in `s`, `Lower(q)` occurs in `Lower(s)`. */
  lemma OccursAtLower(s: string, q: string, i: int)
    requires OccursAt(s, q, i)
    ensures OccursAt(Lower(s), Lower(q), i)
  {
    var ls, lq := Lower(s), Lower(q);
    forall k | 0 <= k < |q| ensures ls[i + k] == lq[k] {
      assert s[i..i + |q|][k] == s[i + k] == q[k];
    }
    assert ls[i..i + |q|] == lq;
  }

  // ---------------------------------------------------------------- split(sep)

  /** `s.split(sep)` for a non-empty separator. */
  function SplitOn(s: string, sep: string): (parts: seq<string>)
    requires sep != []
    ensures |parts| >= 1
    ensures |parts| >= 2 <==> Contains(s, sep)
    ensures parts[0] == (match IndexOf(s, sep) case Some(i) => s[..i] case None => s)
    decreases |s|
  {
    match IndexOf(s, sep)
    case None => [s]
    case Some(i) => [s[..i]] + SplitOn(s[i + |sep|..], sep)
  }

  /** Cutting `s` around an occurrence of `sep` and gluing it back gives `s`. */
  lemma Reassemble(s: string, sep: string, i: nat)
    requires OccursAt(s, sep, i)
    ensures s[..i] + sep + s[i + |sep|..] == s
  {
    assert s[i..i + |sep|] == sep;
    assert s == s[..i] + s[i..i + |sep|] + s[i + |sep|..];
  }

  /** Joining the pieces of `s.split(sep)` with `sep` gives `s` back. */
  lemma {:induction false} SplitOnJoin(s: string, sep: string)
    requires sep != []
    ensures Join(SplitOn(s, sep), sep) == s
    decreases |s|
  {
    match IndexOf(s, sep)
    case None =>
    case Some(i) =>
      var head, rest := s[..i], s[i + |sep|..];
      var tail := SplitOn(rest, sep);
      SplitOnJoin(rest, sep);
      JoinCons(head, tail, sep);
      Reassemble(s, sep, i);
  }

  /** The longest prefix of `t` that does not contain `c`. */
  function TakeUntil(t: string, c: char): (r: string)
    ensures |r| <= |t| && r == t[..|r|] && c !in r
    ensures |r| == |t| || t[|r|] == c
    decreases |t|
  {
    if t == [] || t[0] == c then [] else [t[0]] + TakeUntil(t[1..], c)
  }

  lemma TakeUntilAt(t: string, c: char, k: nat)
    requires k <= |t| && c !in t[..k]
    requires k == |t| || t[k] == c
    ensures TakeUntil(t, c) == t[..k]
    decreases k
  {
    if k > 0 {
      assert t[..k][0] == t[0];
      assert t[1..][..k - 1] == t[..k][1..];
      assert k - 1 == |t[1..]| || t[1..][k - 1] == t[k];
      TakeUntilAt(t[1..], c, k - 1);
      assert t[..k] == [t[0]] + t[1..][..k - 1];
    }
  }

  /** The first piece of `t.split(c)` is `t` up to its first `c`. */
  lemma SplitOnCharHead(t: string, c: char)
    ensures SplitOn(t, [c])[0] == TakeUntil(t, c)
  {
    match IndexOf(t, [c])
    case None =>
      forall k | 0 <= k < |t| ensures t[k] != c {
        assert !OccursAt(t, [c], k);
      }
      TakeUntilAt(t, c, |t|);
      assert t[..|t|] == t;
    case Some(i) =>
      assert t[i..i + 1] == [c];
      forall k | 0 <= k < i ensures t[..i][k] != c {
        assert !OccursAt(t, [c], k) && t[..i][k] == t[k];
      }
      TakeUntilAt(t, c, i);
  }

  /** Cutting `t` at a `c` does not change the text before its first `c`. */
  lemma TakeUntilCut(t: string, c: char, j: nat)
    requires j < |t| && t[j] == c
    ensures TakeUntil(t[..j], c) == TakeUntil(t, c)
    decreases j
  {
    if j > 0 && t[0] != c {
      assert t[..j][0] == t[0];
      assert t[..j][1..] == t[1..][..j - 1];
      TakeUntilCut(t[1..], c, j - 1);
    }
  }

  // ---------------------------------------------------------------- concatenation of pieces

  /** `"".join(f(x) for x in xs)`: the pieces `f` makes of `xs`, concatenated in order. */
  function Gather(xs: seq<string>, f: string -> string): string
    decreases |xs|
  {
    if xs == [] then "" else Gather(xs[..|xs| - 1], f) + f(xs[|xs| - 1])
  }

  lemma GatherSnoc(xs: seq<string>, x: string, f: string -> string)
    ensures Gather(xs + [x], f) == Gather(xs, f) + f(x)
  {
    var s := xs + [x];
    assert s[..|s| - 1] == xs && s[|s| - 1] == x;
  }

  /** Gathering distributes over concatenation of the inputs. */
  lemma {:induction false} GatherAppend(a: seq<string>, b: seq<string>, f: string -> string)
    ensures Gather(a + b, f) == Gather(a, f) + Gather(b, f)
    decreases |b|
  {
    if b == [] {
      assert a + b == a;
    } else {
      var front, last := b[..|b| - 1], b[|b| - 1];
      assert b == front + [last];
      assert a + b == (a + front) + [last];
      GatherSnoc(a + front, last, f);
      GatherAppend(a, front, f);
    }
  }

  // ---------------------------------------------------------------- str(n)

  predicate IsDigit(c: char) {
    '0' <= c <= '9'
  }

  function DigitChar(d: nat): (c: char)
    requires d < 10
    ensures IsDigit(c)
  {
    ('0' as int + d) as char
  }

  /** Python's `str(n)` for a natural number: its decimal digits, most significant first, with no leading zero. */
  function NatString(n: nat): (r: string)
    ensures r != [] && forall i :: 0 <= i < |r| ==> IsDigit(r[i])
    ensures |r| > 1 ==> r[0] != '0'
    decreases n
  {
    if n < 10 then [DigitChar(n)] else NatString(n / 10) + [DigitChar(n % 10)]
  }

  /** Python's `str(n)` for any integer. */
  function IntString(n: int): string {
    if n < 0 then "-" + NatString(-n) else NatString(n)
  }

  /** The number a string of decimal digits denotes. */
  function DigitsValue(s: string): nat
    requires forall i :: 0 <= i < |s| ==> IsDigit(s[i])
    decreases |s|
  {
    if s == [] then 0
    else
      assert IsDigit(s[|s| - 1]);
      10 * DigitsValue(s[..|s| - 1]) + (s[|s| - 1] as int - '0' as int)
  }

  /** Reading the decimal string back gives the number. */
  lemma {:induction false} NatStringRoundTrip(n: nat)
    ensures DigitsValue(NatString(n)) == n
    decreases n
  {
    if n >= 10 {
      var s := NatString(n);
      assert s[..|s| - 1] == NatString(n / 10);
      NatStringRoundTrip(n / 10);
    }
  }

  /** Distinct numbers print differently. */
  lemma IntStringInjective(m: int, n: int)
    requires IntString(m) == IntString(n)
    ensures m == n
  {
    if m < 0 && n < 0 {
      assert NatString(-m) == IntString(m)[1..] == IntString(n)[1..] == NatString(-n);
      NatStringRoundTrip(-m);
      NatStringRoundTrip(-n);
    } else if m >= 0 && n >= 0 {
      NatStringRoundTrip(m);
      NatStringRoundTrip(n);
    }
  }
}
