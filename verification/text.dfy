/** The string operations of Go's standard library that the tunnel relies on.
    A Go string is a sequence of bytes; here it is a `string` with one `char` per byte. */
module Text {

  datatype Option<+T> = None | Some(value: T)

  const CRLF: string := "\r\n"

  // The range of Go's 64-bit int.
  const MAX_INT: int := 0x7fff_ffff_ffff_ffff
  const MIN_INT: int := -0x8000_0000_0000_0000

  type GoInt = x: int | MIN_INT <= x <= MAX_INT

  // ---------------------------------------------------------------- searching

  predicate HasPrefix(s: string, p: string) {
    |p| <= |s| && s[..|p|] == p
  }

  predicate Occurs(s: string, sep: string, i: int) {
    0 <= i && i + |sep| <= |s| && s[i..i + |sep|] == sep
  }

  ghost predicate Free(s: string, sep: string) {
    forall i :: !Occurs(s, sep, i)
  }

  lemma Regroup<T>(a: seq<T>, b: seq<T>, c: seq<T>)
    ensures a + (b + c) == a + b + c
  {
  }

  lemma Behind(a: string, b: string)
    ensures (a + b)[..|a|] == a && (a + b)[|a|..] == b && (a + b)[|a|..|a| + |b|] == b
  {
  }

  lemma CutAround(a: string, sep: string, b: string)
    ensures (a + sep + b)[..|a|] == a && (a + sep + b)[|a| + |sep|..] == b
  {
    Behind(a + sep, b);
  }

  lemma SliceSlice(s: string, i: nat, j: nat, a: nat, b: nat)
    requires i <= j <= |s| && a <= b <= j - i
    ensures s[i..j][a..b] == s[i + a..i + b]
  {
    var t := s[i..j];
    forall m | 0 <= m < b - a ensures t[a..b][m] == s[i + a..i + b][m] {
      assert t[a + m] == s[i + (a + m)];
    }
  }

  /** An occurrence inside a slice is an occurrence of the whole string inside those bounds. */
  lemma OccursSlice(s: string, i: nat, j: nat, sep: string, k: int)
    requires i <= j <= |s|
    ensures Occurs(s[i..j], sep, k) <==> 0 <= k && k + |sep| <= j - i && Occurs(s, sep, i + k)
  {
    if 0 <= k && k + |sep| <= j - i {
      SliceSlice(s, i, j, k, k + |sep|);
    }
  }

  /** Behind a, the text a + b has the occurrences of b. */
  lemma OccursBehind(a: string, b: string, sep: string, k: nat)
    ensures Occurs(a + b, sep, |a| + k) <==> Occurs(b, sep, k)
  {
    Behind(a, b);
    OccursSlice(a + b, |a|, |a| + |b|, sep, k);
  }

  lemma FreeSlice(s: string, sep: string, i: nat, j: nat)
    requires Free(s, sep) && i <= j <= |s|
    ensures Free(s[i..j], sep)
  {
    forall k ensures !Occurs(s[i..j], sep, k) { OccursSlice(s, i, j, sep, k); }
  }

  /** strings.Index: the first position of sep in s, or -1. */
  function Index(s: string, sep: string): (r: int)
    ensures -1 <= r && (r >= 0 ==> r + |sep| <= |s|)
  {
    if |s| < |sep| then -1
    else if s[..|sep|] == sep then 0
    else
      var r := Index(s[1..], sep);
      if r < 0 then -1 else r + 1
  }

  /** Where sep occurs in s, it occurs one earlier in the rest of s; there is no occurrence before 0. */
  lemma OccursTail(s: string, sep: string)
    requires s != ""
    ensures forall k :: k > 0 ==> (Occurs(s, sep, k) <==> Occurs(s[1..], sep, k - 1))
    ensures forall k :: k < 0 ==> !Occurs(s, sep, k)
  {
    assert s[1..] == s[1..|s|];
    forall k | k > 0 ensures Occurs(s, sep, k) <==> Occurs(s[1..], sep, k - 1) {
      OccursSlice(s, 1, |s|, sep, k - 1);
      hide Occurs;
    }
  }

  lemma {:induction false} IndexFirst(s: string, sep: string)
    ensures var r := Index(s, sep);
      if r < 0 then Free(s, sep)
      else Occurs(s, sep, r) && forall k :: k < r ==> !Occurs(s, sep, k)
  {
    if |sep| <= |s| && s[..|sep|] == sep {
      assert Occurs(s, sep, 0);
    } else if |sep| <= |s| {
      IndexFirst(s[1..], sep);
      assert !Occurs(s, sep, 0);
      OccursTail(s, sep);
      hide Occurs;
    }
  }

  /** A position is the first occurrence when sep is there and nowhere before. */
  lemma IndexIs(s: string, sep: string, i: int)
    requires Occurs(s, sep, i)
    requires forall k :: 0 <= k < i ==> !Occurs(s, sep, k)
    ensures Index(s, sep) == i
  {
    IndexFirst(s, sep);
    var r := Index(s, sep);
    assert r >= 0 && Occurs(s, sep, r);
  }

  /** No proper suffix of sep is a prefix of it, so two occurrences never overlap. */
  ghost predicate Unbordered(sep: string) {
    |sep| > 0 && forall k :: 0 < k < |sep| ==> sep[k..] != sep[..|sep| - k]
  }

  lemma CommonSeparators()
    ensures Unbordered(CRLF) && Unbordered("\n") && Unbordered(" ") && Unbordered(":")
  {
    assert CRLF[1..] == "\n" && CRLF[..1] == "\r";
  }

  /** Nothing written before a separator-free string's end can start an occurrence of sep. */
  lemma NoEarlierOccurrence(l: string, sep: string, rest: string, k: int)
    requires Unbordered(sep) && Free(l, sep) && 0 <= k < |l|
    ensures !Occurs(l + sep + rest, sep, k)
  {
    var s := l + sep + rest;
    assert s[0..|l|] == l;
    OccursSlice(s, 0, |l|, sep, k);
    var n := |l| - k;
    if n < |sep| {
      assert sep[n..] != sep[..|sep| - n];
      SliceSlice(s, k, k + |sep|, n, |sep|);
      assert s[|l|..|l| + |sep|] == sep;
      SliceSlice(s, |l|, |l| + |sep|, 0, |sep| - n);
    }
  }

  /** The first occurrence of sep in l + sep + rest is the one written there. */
  lemma IndexOfSeparator(l: string, sep: string, rest: string)
    requires Unbordered(sep) && Free(l, sep)
    ensures Index(l + sep + rest, sep) == |l|
  {
    var s := l + sep + rest;
    assert s[|l|..|l| + |sep|] == sep;
    forall k | 0 <= k < |l| ensures !Occurs(s, sep, k) { NoEarlierOccurrence(l, sep, rest, k); }
    IndexIs(s, sep, |l|);
  }

  // ---------------------------------------------------------------- splitting

  /** strings.Split, for a non-empty separator. */
  function Split(s: string, sep: string): (r: seq<string>)
    requires |sep| > 0
    ensures |r| >= 1
    decreases |s|
  {
    var i := Index(s, sep);
    if i < 0 then [s]
    else
      [s[..i]] + Split(s[i + |sep|..], sep)
  }

  lemma FirstPart(s: string, sep: string)
    requires |sep| > 0 && Index(s, sep) >= 0
    ensures Free(s[..Index(s, sep)], sep)
  {
    var i := Index(s, sep);
    IndexFirst(s, sep);
    assert s[..i] == s[0..i];
    forall k ensures !Occurs(s[..i], sep, k) { OccursSlice(s, 0, i, sep, k); }
  }

  lemma {:induction false} SplitFree(s: string, sep: string)
    requires |sep| > 0
    ensures forall l :: l in Split(s, sep) ==> Free(l, sep)
    decreases |s|
  {
    var i := Index(s, sep);
    if i < 0 {
      IndexFirst(s, sep);
    } else {
      FirstPart(s, sep);
      SplitFree(s[i + |sep|..], sep);
    }
  }

  /** strings.Join. */
  function Join(ls: seq<string>, sep: string): string {
    if |ls| == 0 then "" else if |ls| == 1 then ls[0] else ls[0] + sep + Join(ls[1..], sep)
  }

  lemma {:induction false} JoinSplit(s: string, sep: string)
    requires |sep| > 0
    ensures Join(Split(s, sep), sep) == s
    decreases |s|
  {
    var i := Index(s, sep);
    IndexFirst(s, sep);
    hide Index, Free;
    if i >= 0 {
      var tail := Split(s[i + |sep|..], sep);
      JoinSplit(s[i + |sep|..], sep);
      assert Split(s, sep)[1..] == tail;
      assert s == s[..i] + s[i..i + |sep|] + s[i + |sep|..];
    }
  }

  lemma {:induction false} SplitJoin(ls: seq<string>, sep: string)
    requires Unbordered(sep) && |ls| >= 1
    requires forall l :: l in ls ==> Free(l, sep)
    ensures Split(Join(ls, sep), sep) == ls
  {
    assert Free(ls[0], sep) by { assert ls[0] in ls; }
    hide Occurs, Free;
    if |ls| == 1 {
      assert ls == [ls[0]];
      SplitNothing(ls[0], sep);
    } else {
      var rest := Join(ls[1..], sep);
      SplitJoin(ls[1..], sep);
      SplitFirst(ls[0], sep, rest);
      assert ls == [ls[0]] + ls[1..];
    }
  }

  lemma SplitNothing(l: string, sep: string)
    requires |sep| > 0 && Free(l, sep)
    ensures Split(l, sep) == [l]
  {
    IndexFirst(l, sep);
    hide Index;
  }

  lemma SplitFirst(l: string, sep: string, rest: string)
    requires Unbordered(sep) && Free(l, sep)
    ensures Split(l + sep + rest, sep) == [l] + Split(rest, sep)
  {
    IndexOfSeparator(l, sep, rest);
    hide Index, Free, Occurs, Unbordered;
    var s := l + sep + rest;
    assert s[..|l|] == l && s[|l| + |sep|..] == rest;
  }

  lemma {:induction false} JoinAppend(a: seq<string>, b: seq<string>, sep: string)
    requires |a| > 0 && |b| > 0
    ensures Join(a + b, sep) == Join(a, sep) + sep + Join(b, sep)
  {
    if |a| == 1 {
      assert (a + b)[1..] == b;
    } else {
      JoinAppend(a[1..], b, sep);
      assert (a + b)[1..] == a[1..] + b;
    }
  }

  // ---------------------------------------------------------------- trimming and case

  predicate IsSpace(c: char) {
    c == ' ' || c == '\t' || c == '\n' || c == '\r' || c == '\U{0B}' || c == '\U{0C}'
  }

  predicate Trimmed(s: string) {
    s == "" || (!IsSpace(s[0]) && !IsSpace(s[|s| - 1]))
  }

  function TrimLeft(s: string): (r: string)
    ensures |r| <= |s|
  {
    if s != "" && IsSpace(s[0]) then TrimLeft(s[1..]) else s
  }

  function TrimRight(s: string): (r: string)
    ensures |r| <= |s|
  {
    if s != "" && IsSpace(s[|s| - 1]) then TrimRight(s[..|s| - 1]) else s
  }

  /** White space is blank, tab, line feed, vertical tab, form feed and carriage return. */
  lemma WhiteSpace(c: char)
    ensures IsSpace(c) <==> c in " \t\n\U{0B}\U{0C}\r"
  {
    var spaces := " \t\n\U{0B}\U{0C}\r";
    assert c in spaces <==> exists k :: 0 <= k < 6 && spaces[k] == c;
  }

  /** strings.TrimSpace on single-byte white space. */
  function TrimSpace(s: string): string {
    TrimRight(TrimLeft(s))
  }

  ghost predicate AllSpace(s: string) {
    forall k :: 0 <= k < |s| ==> IsSpace(s[k])
  }

  lemma {:induction false} TrimLeftSlice(s: string)
    ensures var r := TrimLeft(s); var i := |s| - |r|;
      r == s[i..] && (r == "" || !IsSpace(r[0])) && AllSpace(s[..i])
  {
    if s != "" && IsSpace(s[0]) {
      TrimLeftSlice(s[1..]);
      var i := |s| - |TrimLeft(s)|;
      assert s[1..][i - 1..] == s[i..];
      assert forall k :: 1 <= k < i ==> s[..i][k] == s[1..][..i - 1][k - 1];
    }
  }

  lemma {:induction false} TrimRightSlice(s: string)
    ensures var r := TrimRight(s);
      r == s[..|r|] && (r == "" || !IsSpace(r[|r| - 1])) && AllSpace(s[|r|..])
  {
    if s != "" && IsSpace(s[|s| - 1]) {
      var init := s[..|s| - 1];
      TrimRightSlice(init);
      var n := |TrimRight(s)|;
      assert init[..n] == s[..n];
      assert forall k :: 0 <= k < |init| - n ==> s[n..][k] == init[n..][k];
    }
  }

  /** TrimSpace cuts a slice out of s and drops only white space. */
  lemma TrimSlice(s: string) returns (i: nat, j: nat)
    ensures i <= j <= |s| && TrimSpace(s) == s[i..j]
    ensures Trimmed(TrimSpace(s))
    ensures AllSpace(s[..i]) && AllSpace(s[j..])
  {
    var l := TrimLeft(s);
    TrimLeftSlice(s);
    TrimRightSlice(l);
    hide TrimLeft, TrimRight, AllSpace;
    i := |s| - |l|;
    j := i + |TrimRight(l)|;
    assert s[i..j] == l[..j - i];
    assert s[j..] == l[j - i..];
    if TrimSpace(s) != "" { assert TrimSpace(s)[0] == l[0]; }
  }

  lemma TrimIdempotent(s: string)
    ensures Trimmed(TrimSpace(s))
    ensures Trimmed(s) ==> TrimSpace(s) == s
  {
    var i, j := TrimSlice(s);
  }

  lemma TrimFree(s: string, sep: string)
    requires Free(s, sep)
    ensures Free(TrimSpace(s), sep)
  {
    var i, j := TrimSlice(s);
    FreeSlice(s, sep, i, j);
  }

  lemma TrimAfterSpace(v: string)
    ensures TrimSpace(" " + v) == TrimSpace(v)
  {
    assert (" " + v)[1..] == v;
  }

  function LowerChar(c: char): char {
    if 'A' <= c <= 'Z' then (c as int + 32) as char else c
  }

  /** strings.ToLower on ASCII letters. */
  function Lower(s: string): (r: string)
    ensures |r| == |s| && forall k :: 0 <= k < |s| ==> r[k] == LowerChar(s[k])
  {
    seq(|s|, k requires 0 <= k < |s| => LowerChar(s[k]))
  }

  /** The upper-case letters become the lower-case ones; every other byte stays. */
  lemma LetterCase(c: char, i: nat)
    requires i < 26
    ensures LowerChar("ABCDEFGHIJKLMNOPQRSTUVWXYZ"[i]) == "abcdefghijklmnopqrstuvwxyz"[i]
    ensures c !in "ABCDEFGHIJKLMNOPQRSTUVWXYZ" ==> LowerChar(c) == c
  {
    var letters := "ABCDEFGHIJKLMNOPQRSTUVWXYZ";
    assert forall k :: 0 <= k < 26 ==> letters[k] as int == 'A' as int + k;
    assert "abcdefghijklmnopqrstuvwxyz"[i] as int == 'a' as int + i;
    if 'A' <= c <= 'Z' { assert letters[c as int - 'A' as int] == c; }
  }

  // ---------------------------------------------------------------- decimal numbers

  predicate AllDigits(s: string) {
    forall k :: 0 <= k < |s| ==> '0' <= s[k] <= '9'
  }

  function DecValue(s: string): nat
    requires AllDigits(s)
  {
    if s == "" then 0 else DecValue(s[..|s| - 1]) * 10 + (s[|s| - 1] as int - '0' as int)
  }

  function Digits(n: nat): (r: string)
    ensures r != "" && AllDigits(r) && DecValue(r) == n
  {
    if n < 10 then
      var r := [('0' as int + n) as char];
      assert r[..0] == "";
      r
    else
      var hi := Digits(n / 10);
      var r := hi + [('0' as int + n % 10) as char];
      assert r[..|r| - 1] == hi;
      r
  }

  /** strconv.Itoa. */
  function Itoa(n: int): string {
    if n < 0 then "-" + Digits(-n) else Digits(n)
  }

  /** The usual decimal digits, the last one last. */
  lemma Decimal(n: nat)
    ensures n < 10 ==> Itoa(n) == ["0123456789"[n]]
    ensures n >= 10 ==> Itoa(n) == Itoa(n / 10) + ["0123456789"[n % 10]]
  {
    assert forall d :: 0 <= d < 10 ==> "0123456789"[d] == ('0' as int + d) as char;
  }

  /** strconv.Atoi: an optional sign, at least one digit, and a value that fits an int. */
  function Atoi(s: string): Option<int> {
    var d := if s != "" && (s[0] == '-' || s[0] == '+') then s[1..] else s;
    if d == "" || !AllDigits(d) then None
    else
      var n: int := if s[0] == '-' then 0 - DecValue(d) else DecValue(d);
      if MIN_INT <= n <= MAX_INT then Some(n) else None
  }

  lemma AtoiItoa(n: int)
    requires MIN_INT <= n <= MAX_INT
    ensures Atoi(Itoa(n)) == Some(n)
    ensures Itoa(n) != "" && Trimmed(Itoa(n))
  {
    hide Digits, DecValue;
    if n >= 0 {
      assert Digits(n)[0] != '-' && Digits(n)[0] != '+';
    } else {
      assert Itoa(n)[1..] == Digits(-n);
    }
  }

  /** A separator that starts with neither a digit nor '-' never occurs in a printed number. */
  lemma ItoaFree(n: int, sep: string)
    requires |sep| > 0 && sep[0] != '-' && !('0' <= sep[0] <= '9')
    ensures Free(Itoa(n), sep)
  {
    var s := Itoa(n);
    forall k ensures !Occurs(s, sep, k) {
      if 0 <= k && k + |sep| <= |s| {
        assert s[k..k + |sep|][0] == s[k];
        assert s[k] != sep[0];
      }
    }
  }
}
