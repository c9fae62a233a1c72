/** Small helpers shared by the rest of the model: an Option type, the
    enumeration of a map's keys (Python dict iteration, whose order the model
    leaves unspecified), and the handful of Python string operations the
    source relies on (`upper`, `lower`, `strip`, `split(',')`, `splitlines`,
    `in` on strings, `str(int)` and `int(float(s))`). */
module Common {

  datatype Option<T> = None | Some(value: T) {
    function GetOr(default: T): T {
      match this
      case Some(v) => v
      case None => default
    }
  }

  /** The elements of `s` in some order, each once: the order in which Python
      iterates a set is not modelled. */
  method ElementsOf<T(==)>(s: set<T>) returns (xs: seq<T>)
    ensures Distinct(xs)
    ensures forall x :: x in xs <==> x in s
    ensures |xs| == |s|
  {
    xs := [];
    var rest := s;
    while rest != {}
      invariant rest <= s
      invariant Distinct(xs)
      invariant forall x :: x in xs <==> x in s && x !in rest
      invariant |xs| + |rest| == |s|
      decreases |rest|
    {
      var x :| x in rest;
      xs := xs + [x];
      rest := rest - {x};
    }
  }

  /** The keys of `m` in some order, each once: the order in which a Python
      loop over a dict visits them is not modelled. */
  method KeysOf<K(==), V>(m: map<K, V>) returns (ks: seq<K>)
    ensures Distinct(ks)
    ensures forall k :: k in ks <==> k in m
    ensures |ks| == |m|
  {
    ks := ElementsOf(m.Keys);
  }

  predicate Distinct<T(==)>(s: seq<T>) {
    forall i, j :: 0 <= i < j < |s| ==> s[i] != s[j]
  }

  lemma {:induction false} DistinctCard<T>(s: seq<T>)
    requires Distinct(s)
    ensures |set x | x in s| == |s|
  {
    if s != [] {
      var t := s[..|s| - 1];
      assert Distinct(t);
      DistinctCard(t);
      assert (set x | x in s) == (set x | x in t) + {s[|s| - 1]};
      assert s[|s| - 1] !in t;
    }
  }

  /** `list(set(s))`: every element once. The model keeps first occurrences in
      order; the order Python gives is unspecified. */
  function Dedup<T(==,!new)>(s: seq<T>): (r: seq<T>)
    ensures Distinct(r)
    ensures forall x :: x in r <==> x in s
    ensures |r| <= |s|
  {
    if s == [] then []
    else
      var p := Dedup(s[..|s| - 1]);
      assert forall x :: x in s <==> x in s[..|s| - 1] || x == s[|s| - 1];
      if s[|s| - 1] in p then p else p + [s[|s| - 1]]
  }

  /** A sequence without repeats is unchanged by `Dedup`. */
  lemma {:induction false} DedupDistinct<T(!new)>(s: seq<T>)
    requires Distinct(s)
    ensures Dedup(s) == s
  {
    if s != [] {
      var t := s[..|s| - 1];
      DedupDistinct(t);
      assert s[|s| - 1] !in t;
      assert s == t + [s[|s| - 1]];
    }
  }

  lemma {:induction false} DistinctAtMostOnce<T>(s: seq<T>, x: T)
    requires Distinct(s)
    ensures multiset(s)[x] <= 1
  {
    if s != [] {
      var t := s[..|s| - 1];
      assert s == t + [s[|s| - 1]];
      DistinctAtMostOnce(t, x);
      if x == s[|s| - 1] {
        assert x !in t;
      }
    }
  }

  /** Reordering keeps a sequence free of repeats. */
  lemma DistinctPerm<T>(a: seq<T>, b: seq<T>)
    requires multiset(a) == multiset(b) && Distinct(a)
    ensures Distinct(b)
  {
    forall i, j | 0 <= i < j < |b| ensures b[i] != b[j] {
      if b[i] == b[j] {
        assert b == b[..j] + b[j..];
        assert b[i] in multiset(b[..j]);
        assert b[j] in multiset(b[j..]);
        assert multiset(b)[b[i]] >= 2;
        DistinctAtMostOnce(a, b[i]);
      }
    }
  }

  // ---------------------------------------------------------------- characters

  predicate IsAsciiLower(c: char) { 'a' <= c <= 'z' }
  predicate IsAsciiUpper(c: char) { 'A' <= c <= 'Z' }
  predicate IsDigit(c: char) { '0' <= c <= '9' }
  /** The characters Python's `str.strip()` removes that the model knows about. */
  predicate IsSpace(c: char) {
    c == ' ' || c == '\t' || c == '\n' || c == '\r' || c == '\U{B}' || c == '\U{C}'
  }

  function UpperChar(c: char): (u: char)
    ensures !IsAsciiLower(u)
    ensures !IsAsciiLower(c) ==> u == c
  {
    if IsAsciiLower(c) then (c as int - 32) as char else c
  }

  function LowerChar(c: char): (l: char)
    ensures !IsAsciiUpper(l)
    ensures !IsAsciiUpper(c) ==> l == c
  {
    if IsAsciiUpper(c) then (c as int + 32) as char else c
  }

  /** `s.upper()` on the ASCII letters. */
  function Upper(s: string): (r: string)
    ensures |r| == |s|
    ensures forall i :: 0 <= i < |s| ==> r[i] == UpperChar(s[i])
  {
    if s == [] then [] else [UpperChar(s[0])] + Upper(s[1..])
  }

  /** `s.lower()` on the ASCII letters. */
  function Lower(s: string): (r: string)
    ensures |r| == |s|
    ensures forall i :: 0 <= i < |s| ==> r[i] == LowerChar(s[i])
  {
    if s == [] then [] else [LowerChar(s[0])] + Lower(s[1..])
  }

  // ---------------------------------------------------------------- substrings

  /** `k in text` for strings. */
  predicate Contains(text: string, k: string) {
    if |k| <= |text| && text[..|k|] == k then true
    else if text == [] then false
    else Contains(text[1..], k)
  }

  lemma {:induction false} ContainsAt(text: string, k: string, i: nat)
    requires i + |k| <= |text| && text[i..i + |k|] == k
    ensures Contains(text, k)
  {
    if !(|k| <= |text| && text[..|k|] == k) {
      assert i > 0;
      assert text[1..][i - 1..i - 1 + |k|] == k;
      ContainsAt(text[1..], k, i - 1);
    }
  }

  lemma {:induction false} ContainsWitness(text: string, k: string) returns (i: nat)
    requires Contains(text, k)
    ensures i + |k| <= |text| && text[i..i + |k|] == k
  {
    if |k| <= |text| && text[..|k|] == k {
      i := 0;
    } else {
      var j := ContainsWitness(text[1..], k);
      i := j + 1;
      assert text[i..i + |k|] == text[1..][j..j + |k|];
    }
  }

  /** `any(k in text for k in keywords)`. */
  predicate ContainsAny(text: string, keywords: seq<string>) {
    keywords != [] && (Contains(text, keywords[0]) || ContainsAny(text, keywords[1..]))
  }

  lemma {:induction false} ContainsAnyMeans(text: string, keywords: seq<string>)
    ensures ContainsAny(text, keywords) <==> exists i :: 0 <= i < |keywords| && Contains(text, keywords[i])
  {
    if keywords != [] {
      ContainsAnyMeans(text, keywords[1..]);
      if !Contains(text, keywords[0]) && exists i :: 0 <= i < |keywords| && Contains(text, keywords[i]) {
        var i :| 0 <= i < |keywords| && Contains(text, keywords[i]);
        assert keywords[1..][i - 1] == keywords[i];
      }
    }
  }

  // ---------------------------------------------------------------- strip

  function StripLeft(s: string): (r: string)
    ensures |r| <= |s| && r == s[|s| - |r|..]
    ensures r == [] || !IsSpace(r[0])
  {
    if s != [] && IsSpace(s[0]) then StripLeft(s[1..]) else s
  }

  function StripRight(s: string): (r: string)
    ensures |r| <= |s| && r == s[..|r|]
    ensures r == [] || !IsSpace(r[|r| - 1])
  {
    if s != [] && IsSpace(s[|s| - 1]) then StripRight(s[..|s| - 1]) else s
  }

  /** `s.strip()`. */
  function Strip(s: string): (r: string) {
    StripRight(StripLeft(s))
  }

  /** `strip()` leaves no white space at either end and never grows. */
  lemma StripTrimmed(s: string)
    ensures |Strip(s)| <= |s|
    ensures Strip(s) == [] || (!IsSpace(Strip(s)[0]) && !IsSpace(Strip(s)[|Strip(s)| - 1]))
  {
    var l := StripLeft(s);
    var r := StripRight(l);
    assert r != [] ==> r[0] == l[0];
  }

  /** A string with no leading or trailing white space is its own `strip()`. */
  lemma StripUnchanged(s: string)
    requires s == [] || (!IsSpace(s[0]) && !IsSpace(s[|s| - 1]))
    ensures Strip(s) == s
  {
  }

  /** A field the export writes and the import reads back unchanged. */
  predicate SafeField(s: string) {
    ',' !in s && '\n' !in s && Strip(s) == s
  }

  // ---------------------------------------------------------------- split

  /** `s.split(sep)` for a one-character separator: always at least one part. */
  function Split(s: string, sep: char): (parts: seq<string>)
    ensures |parts| >= 1
    ensures forall i :: 0 <= i < |parts| ==> sep !in parts[i]
    decreases |s|
  {
    if sep !in s then [s]
    else
      var i := IndexOf(s, sep);
      [s[..i]] + Split(s[i + 1..], sep)
  }

  function IndexOf(s: string, c: char): (i: nat)
    requires c in s
    ensures i < |s| && s[i] == c && c !in s[..i]
  {
    if s[0] == c then 0 else 1 + IndexOf(s[1..], c)
  }

  /** The parts joined back with `sep` between them. */
  function JoinWith(parts: seq<string>, sep: char): string
    requires |parts| >= 1
  {
    if |parts| == 1 then parts[0] else parts[0] + [sep] + JoinWith(parts[1..], sep)
  }

  /** The first separator of `a + [sep] + b` is the one after `a`. */
  lemma {:induction false} IndexOfAfter(a: string, sep: char, b: string)
    requires sep !in a
    ensures IndexOf(a + [sep] + b, sep) == |a|
  {
    if a != [] {
      assert (a + [sep] + b)[1..] == a[1..] + [sep] + b;
      IndexOfAfter(a[1..], sep, b);
    }
  }

  /** Splitting peels off the text before the first separator. */
  lemma SplitCons(a: string, sep: char, b: string)
    requires sep !in a
    ensures Split(a + [sep] + b, sep) == [a] + Split(b, sep)
  {
    var s := a + [sep] + b;
    assert s[|a|] == sep;
    IndexOfAfter(a, sep, b);
    assert s[..|a|] == a;
    assert s[|a| + 1..] == b;
  }

  /** No part holds the separator. */
  predicate NoSeparator(parts: seq<string>, sep: char) {
    forall i :: 0 <= i < |parts| ==> sep !in parts[i]
  }

  lemma NoSeparatorTail(parts: seq<string>, sep: char)
    requires |parts| >= 1 && NoSeparator(parts, sep)
    ensures sep !in parts[0] && NoSeparator(parts[1..], sep)
  {
    assert forall i :: 0 <= i < |parts[1..]| ==> parts[1..][i] == parts[i + 1];
  }

  /** The lines after a first one, counted from one. */
  lemma AfterFirst(first: string, ls: seq<string>, i: nat)
    requires 1 <= i <= |ls|
    ensures ([first] + ls)[i] == ls[i - 1]
  {
  }

  lemma ConsParts(parts: seq<string>)
    requires |parts| >= 1
    ensures [parts[0]] + parts[1..] == parts
  {
  }

  /** Splitting a joined row gives back its fields when none holds the separator. */
  lemma {:induction false} SplitJoin(parts: seq<string>, sep: char)
    requires |parts| >= 1 && NoSeparator(parts, sep)
    ensures Split(JoinWith(parts, sep), sep) == parts
  {
    if |parts| > 1 {
      var head, rest := parts[0], parts[1..];
      NoSeparatorTail(parts, sep);
      var tail := JoinWith(rest, sep);
      SplitCons(head, sep, tail);
      SplitJoin(rest, sep);
      ConsParts(parts);
    }
  }

  /** `text.splitlines()` with "\n" as the only line break: no empty part for
      a trailing break, no part at all for the empty text. */
  function SplitLines(text: string): (lines: seq<string>)
    ensures forall i :: 0 <= i < |lines| ==> '\n' !in lines[i]
    decreases |text|
  {
    if text == [] then []
    else if '\n' !in text then [text]
    else
      var i := IndexOf(text, '\n');
      [text[..i]] + SplitLines(text[i + 1..])
  }

  /** Every line followed by "\n", as the export handlers build their text. */
  function JoinLines(lines: seq<string>): string {
    if lines == [] then "" else lines[0] + "\n" + JoinLines(lines[1..])
  }

  lemma {:induction false} JoinLinesAppend(x: seq<string>, y: seq<string>)
    ensures JoinLines(x + y) == JoinLines(x) + JoinLines(y)
  {
    if x == [] {
      assert x + y == y;
    } else {
      assert (x + y)[0] == x[0];
      assert (x + y)[1..] == x[1..] + y;
      JoinLinesAppend(x[1..], y);
      assert JoinLines(x + y) == x[0] + "\n" + JoinLines(x[1..] + y);
    }
  }

  lemma JoinLinesSnoc(ls: seq<string>, l: string)
    ensures JoinLines(ls + [l]) == JoinLines(ls) + l + "\n"
  {
    JoinLinesAppend(ls, [l]);
    assert JoinLines([l]) == l + "\n" + JoinLines([]);
  }

  lemma {:induction false} SplitLinesJoin(lines: seq<string>)
    requires forall i :: 0 <= i < |lines| ==> '\n' !in lines[i]
    ensures SplitLines(JoinLines(lines)) == lines
  {
    if lines != [] {
      var text := JoinLines(lines);
      var rest := JoinLines(lines[1..]);
      assert text == lines[0] + "\n" + rest;
      assert text[|lines[0]|] == '\n';
      assert text[..|lines[0]|] == lines[0];
      assert IndexOf(text, '\n') == |lines[0]|;
      assert text[|lines[0]| + 1..] == rest;
      SplitLinesJoin(lines[1..]);
    }
  }

  /** The index of the last `c` in `s`, or -1 (`s.rfind(c)`). */
  function LastIndexOf(s: string, c: char): (i: int)
    ensures -1 <= i < |s|
    ensures i >= 0 ==> s[i] == c
    ensures forall k :: i < k < |s| ==> s[k] != c
  {
    if s == [] then -1
    else if s[|s| - 1] == c then |s| - 1
    else LastIndexOf(s[..|s| - 1], c)
  }

  /** `os.path.splitext(p)[0]` with "/" as the only separator: the extension
      runs from the last dot of the last path component, unless everything
      before that dot in the component is dots. */
  function SplitExtRoot(p: string): (root: string)
    ensures root == p || (|root| < |p| && p[..|root|] == root && p[|root|] == '.' &&
                          '.' !in p[|root| + 1..] && '/' !in p[|root| + 1..])
    ensures root != p <==> HasExtension(p)
  {
    var dot := LastIndexOf(p, '.');
    var sep := LastIndexOf(p, '/');
    ExtensionBeforeLastDot(p);
    if dot > sep && exists k :: sep < k < dot && p[k] != '.' then p[..dot] else p
  }

  /** The last path component holds a dot with something other than a dot
      before it. */
  predicate HasExtension(p: string) {
    exists j, k :: LastIndexOf(p, '/') < k < j < |p| && p[j] == '.' && p[k] != '.'
  }

  /** The dot that ends a stem is at or before the last dot. */
  lemma ExtensionBeforeLastDot(p: string)
    ensures var dot, sep := LastIndexOf(p, '.'), LastIndexOf(p, '/');
      HasExtension(p) ==> dot > sep && exists k :: sep < k < dot && p[k] != '.'
  {
    if HasExtension(p) {
      var sep := LastIndexOf(p, '/');
      var j, k :| sep < k < j < |p| && p[j] == '.' && p[k] != '.';
      assert k < LastIndexOf(p, '.');
    }
  }

  /** A plain file name loses exactly its extension. */
  lemma SplitExtOf(name: string, ext: string)
    requires name != [] && '.' !in name && '/' !in name && '.' !in ext && '/' !in ext
    ensures SplitExtRoot(name + "." + ext) == name
  {
    var p := name + "." + ext;
    assert p[|name|] == '.';
    assert forall k :: |name| < k < |p| ==> p[k] == ext[k - |name| - 1];
    assert LastIndexOf(p, '.') == |name|;
    assert forall k :: 0 <= k < |p| ==> p[k] != '/' by {
      forall k | 0 <= k < |p|
        ensures p[k] != '/'
      {
        if k < |name| {
          assert p[k] == name[k];
        } else if k > |name| {
          assert p[k] == ext[k - |name| - 1];
        }
      }
    }
    assert name[0] != '.';
    assert p[0] == name[0];
    assert p[..|name|] == name;
  }

  // ---------------------------------------------------------------- numbers

  function DigitValue(c: char): nat
    requires IsDigit(c)
  {
    c as int - '0' as int
  }

  function DigitChar(d: nat): (c: char)
    requires d < 10
    ensures IsDigit(c) && DigitValue(c) == d
  {
    ('0' as int + d) as char
  }

  predicate AllDigits(s: string) {
    forall i :: 0 <= i < |s| ==> IsDigit(s[i])
  }

  /** The value of a run of decimal digits (`int(s)` when `s.isdigit()`). */
  function DigitsValue(s: string): nat
    requires AllDigits(s)
  {
    if s == [] then 0 else DigitsValue(s[..|s| - 1]) * 10 + DigitValue(s[|s| - 1])
  }

  /** `str(n)` for a natural number. */
  function NatToString(n: nat): (s: string)
    ensures |s| >= 1 && AllDigits(s)
  {
    if n < 10 then [DigitChar(n)] else NatToString(n / 10) + [DigitChar(n % 10)]
  }

  lemma {:induction false} NatToStringValue(n: nat)
    ensures DigitsValue(NatToString(n)) == n
  {
    if n >= 10 {
      var s := NatToString(n);
      assert s[..|s| - 1] == NatToString(n / 10);
      NatToStringValue(n / 10);
    }
  }

  /** `str(n)` for an integer. */
  function IntToString(n: int): (s: string)
    ensures |s| >= 1 && !IsSpace(s[0]) && !IsSpace(s[|s| - 1])
    ensures forall i :: 0 <= i < |s| ==> IsDigit(s[i]) || s[i] == '-'
  {
    if n < 0 then "-" + NatToString(-n) else NatToString(n)
  }

  /** `int(x)` for a real: truncation toward zero. */
  function Trunc(x: real): (n: int)
    ensures x >= 0.0 ==> n as real <= x < n as real + 1.0
    ensures x < 0.0 ==> n as real - 1.0 < x <= n as real
  {
    if x >= 0.0 then x.Floor else -((-x).Floor)
  }

  /** `int(float(q))` for the decimal forms `[+|-]digits[.digits]` and
      `[+|-].digits`: the value truncated toward zero, or None where Python
      raises. */
  function ParseQty(q: string): (r: Option<int>)
    ensures r.Some? ==> q != []
    ensures r.Some? <==> QtyText(q)
  {
    if q == [] then None
    else
      UnsignedTextMeans(q);
      UnsignedTextMeans(q[1..]);
      if q[0] == '+' || q[0] == '-' then
        assert !IsDigit(q[0]);
        NotUnsigned(q);
        SignedValue(q)
      else
        match ParseUnsigned(q)
        case Some(v) => Some(v)
        case None => None
  }

  /** `int(float(q))` after a leading sign. */
  function SignedValue(q: string): Option<int>
    requires q != [] && (q[0] == '+' || q[0] == '-')
  {
    if q[0] == '-' then
      match ParseUnsigned(q[1..])
      case Some(v) => Some(0 - v as int)
      case None => None
    else
      match ParseUnsigned(q[1..])
      case Some(v) => Some(v)
      case None => None
  }

  /** A run of digits reads as its value, "+" before one as the same value
      and "-" before one as its negation. */
  lemma ParseQtyDigits(q: string)
    ensures q != [] && AllDigits(q) ==> ParseQty(q) == Some(DigitsValue(q))
    ensures |q| >= 2 && q[0] == '+' && AllDigits(q[1..]) ==> ParseQty(q) == Some(DigitsValue(q[1..]))
    ensures |q| >= 2 && q[0] == '-' && AllDigits(q[1..]) ==> ParseQty(q) == Some(0 - DigitsValue(q[1..]))
  {
  }

  /** The texts `float` accepts here without a sign: a run of digits, or one
      '.' with digits on either side and at least one digit in all. */
  predicate UnsignedText(u: string) {
    (u != [] && AllDigits(u)) ||
    exists i :: 0 <= i < |u| && u[i] == '.' && AllDigits(u[..i]) && AllDigits(u[i + 1..]) && |u| >= 2
  }

  /** An unsigned text, optionally after one '+' or '-'. */
  predicate QtyText(q: string) {
    UnsignedText(q) || (q != [] && (q[0] == '+' || q[0] == '-') && UnsignedText(q[1..]))
  }

  lemma UnsignedTextMeans(u: string)
    ensures ParseUnsigned(u).Some? <==> UnsignedText(u)
  {
    assert !IsDigit('.');
    if '.' in u {
      var i := IndexOf(u, '.');
      forall j | 0 <= j < |u| && u[j] == '.' && AllDigits(u[..j])
        ensures j == i
      {
        if j < i {
          assert false;
        } else if i < j {
          DigitsAt(u[..j], i);
          assert false;
        }
      }
      assert !AllDigits(u) by {
        assert !IsDigit(u[i]);
      }
    } else {
      forall j | 0 <= j < |u|
        ensures u[j] != '.'
      {
        assert u[j] in u;
      }
    }
  }

  lemma DigitsAt(s: string, k: int)
    requires 0 <= k < |s|
    ensures AllDigits(s) ==> IsDigit(s[k])
  {
  }

  /** A text that starts with something other than a digit or '.' is not
      unsigned. */
  lemma NotUnsigned(q: string)
    requires q != [] && !IsDigit(q[0]) && q[0] != '.'
    ensures !UnsignedText(q)
  {
    forall j | 0 < j < |q|
      ensures !AllDigits(q[..j])
    {
      assert q[..j][0] == q[0];
    }
  }

  /** A decimal `w.f` reads as the value `v` of its whole part `w`,
      unchanged after '+' and negated after '-' (truncation toward zero, so
      "-0.5" gives 0). */
  lemma ParseQtyDecimal(w: string, f: string, v: nat)
    requires AllDigits(w) && AllDigits(f) && |w| + |f| >= 1
    requires v == DigitsValue(w)
    ensures ParseQty(w + "." + f) == Some(v)
    ensures ParseQty("+" + (w + "." + f)) == Some(v)
    ensures ParseQty("-" + (w + "." + f)) == Some(0 - v)
  {
    var u := w + "." + f;
    UnsignedDecimal(w, f);
    assert u[0] != '+' && u[0] != '-' by {
      if w != [] {
        assert u[0] == w[0] && IsDigit(w[0]);
      } else {
        assert u[0] == '.';
      }
    }
    SignedQty(u, v);
  }

  /** `int(float(q))` on decimal texts: the fraction is cut off. */
  lemma ParseQtyFractionCut()
    ensures ParseQty("10.7") == Some(10)
    ensures ParseQty("10.") == Some(10)
  {
    assert DigitsValue("10") == 10 by {
      assert "10"[..1] == "1";
    }
    assert "10.7" == "10" + "." + "7" && "10." == "10" + "." + "";
    ParseQtyDecimal("10", "7", 10);
    ParseQtyDecimal("10", "", 10);
  }

  /** A signed fraction below one truncates toward zero to 0, and a lone '.'
      is not a number. */
  lemma ParseQtySignedFraction()
    ensures ParseQty("-0.5") == Some(0)
    ensures ParseQty(".") == None
  {
    var u := "0.5";
    assert u == "0" + "." + "5";
    UnsignedDecimal("0", "5");
    SignedQty(u, 0);
    assert "-" + u == "-0.5";
    assert !IsDigit('.') && !AllDigits(".");
  }

  /** A sign in front of an unsigned text keeps or negates its value. */
  lemma SignedQty(u: string, v: nat)
    requires ParseUnsigned(u) == Some(v)
    ensures ParseQty("+" + u) == Some(v)
    ensures ParseQty("-" + u) == Some(0 - v)
  {
    SignStep('+', u);
    SignStep('-', u);
  }

  lemma SignStep(sign: char, u: string)
    requires sign == '+' || sign == '-'
    ensures ParseQty([sign] + u) == SignedValue([sign] + u)
    ensures SignedValue([sign] + u) ==
      match ParseUnsigned(u)
      case Some(v) => Some(if sign == '-' then 0 - v else v)
      case None => None
  {
    var q := [sign] + u;
    assert q[0] == sign && q[1..] == u;
  }

  lemma UnsignedDecimal(w: string, f: string)
    requires AllDigits(w) && AllDigits(f) && |w| + |f| >= 1
    ensures ParseUnsigned(w + "." + f) == Some(DigitsValue(w))
  {
    assert !IsDigit('.');
    var u := w + "." + f;
    IndexOfAfter(w, '.', f);
    assert u[..|w|] == w && u[|w| + 1..] == f;
  }

  /** The integral part of `digits[.digits]` or `.digits`. */
  function ParseUnsigned(q: string): Option<nat> {
    if '.' in q then
      var i := IndexOf(q, '.');
      var whole, frac := q[..i], q[i + 1..];
      if AllDigits(whole) && AllDigits(frac) && |whole| + |frac| >= 1
      then Some(DigitsValue(whole)) else None
    else if q != [] && AllDigits(q) then Some(DigitsValue(q))
    else None
  }

  /** A printed integer is a safe CSV field and does not read as the word "qty". */
  lemma QtyTextSafe(n: int)
    ensures SafeField(IntToString(n)) && Lower(IntToString(n)) != "qty"
  {
    var q := IntToString(n);
    assert forall i :: 0 <= i < |q| ==> q[i] != ',' && q[i] != '\n';
    StripUnchanged(q);
    assert Lower(q)[0] == LowerChar(q[0]) == q[0] != 'q';
  }

  /** Printing an integer and reading it back as a quantity is the identity. */
  lemma QtyRoundTrip(n: int)
    ensures ParseQty(IntToString(n)) == Some(n)
  {
    var m: nat := if n < 0 then -n else n;
    var s := NatToString(m);
    NatToStringValue(m);
    assert forall i :: 0 <= i < |s| ==> s[i] != '.';
    assert !IsDigit('-') && !IsDigit('+');
    assert s[0] != '-' && s[0] != '+';
    if n < 0 {
      assert IntToString(n)[1..] == s;
    }
  }
}
