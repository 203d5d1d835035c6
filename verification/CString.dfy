/** The C library calls the program leans on: strtok/strtok_r with a one-character separator, strcat in a loop,
    printing a number with %d and reading it back with atoi. */
module CString {
  import opened Text

  // ------------------------------------------------------------------ strtok

  /** Length of the longest prefix of s that holds no separator. */
  function RunLength(s: string, sep: char): (n: nat)
    ensures n <= |s|
    ensures forall i :: 0 <= i < n ==> s[i] != sep
    ensures n < |s| ==> s[n] == sep
  {
    if s == "" || s[0] == sep then 0 else 1 + RunLength(s[1..], sep)
  }

  /** The fields strtok yields: the maximal separator-free runs; empty fields are dropped. */
  function Fields(s: string, sep: char): seq<string>
    decreases |s|
  {
    if s == "" then []
    else if s[0] == sep then Fields(s[1..], sep)
    else var n := RunLength(s, sep); [s[..n]] + Fields(s[n..], sep)
  }

  /** A field as strtok produces it. */
  predicate IsField(f: string, sep: char) {
    f != "" && sep !in f
  }

  ghost predicate AllFields(fs: seq<string>, sep: char) {
    forall i :: 0 <= i < |fs| ==> IsField(fs[i], sep)
  }

  lemma {:induction false} FieldsAreFields(s: string, sep: char)
    ensures AllFields(Fields(s, sep), sep)
    decreases |s|
  {
    if s == "" {
    } else if s[0] == sep {
      FieldsAreFields(s[1..], sep);
    } else {
      FieldsAreFields(s[RunLength(s, sep)..], sep);
    }
  }

  lemma RunLengthIs(s: string, sep: char, n: nat)
    requires n <= |s| && (forall i :: 0 <= i < n ==> s[i] != sep)
    requires n < |s| ==> s[n] == sep
    ensures RunLength(s, sep) == n
  {
  }

  /** One separator splits the work: what follows it is tokenised on its own. */
  lemma {:induction false} FieldsConcat(a: string, sep: char, b: string)
    ensures Fields(a + [sep] + b, sep) == Fields(a, sep) + Fields(b, sep)
    decreases |a|
  {
    hide RunLength;
    var s := a + [sep] + b;
    if a == "" {
      assert s[1..] == b;
    } else if a[0] == sep {
      assert s[1..] == a[1..] + [sep] + b;
      FieldsConcat(a[1..], sep, b);
    } else {
      var n := RunLength(a, sep);
      assert forall i :: 0 <= i < n ==> s[i] == a[i];
      assert n < |s| && s[n] == sep;
      RunLengthIs(s, sep, n);
      assert s[..n] == a[..n];
      assert s[n..] == a[n..] + [sep] + b;
      FieldsConcat(a[n..], sep, b);
      Regroup([a[..n]], Fields(a[n..], sep), Fields(b, sep));
    }
  }

  lemma FieldsOne(f: string, sep: char)
    requires IsField(f, sep)
    ensures Fields(f, sep) == [f]
  {
    RunLengthIs(f, sep, |f|);
    assert f[..|f|] == f && f[|f|..] == "";
  }

  /** The strings of fs with one separator between neighbours. */
  function JoinWith(fs: seq<string>, sep: char): string {
    if fs == [] then ""
    else if |fs| == 1 then fs[0]
    else fs[0] + [sep] + JoinWith(fs[1..], sep)
  }

  /** Tokenising undoes joining, for non-empty separator-free fields. */
  lemma {:induction false} FieldsOfJoin(fs: seq<string>, sep: char)
    requires AllFields(fs, sep)
    ensures Fields(JoinWith(fs, sep), sep) == fs
  {
    if |fs| == 1 {
      FieldsOne(fs[0], sep);
    } else if |fs| > 1 {
      FieldsConcat(fs[0], sep, JoinWith(fs[1..], sep));
      FieldsOne(fs[0], sep);
      FieldsOfJoin(fs[1..], sep);
    }
  }

  lemma {:induction false} JoinWithConcat(a: seq<string>, b: seq<string>, sep: char)
    requires a != [] && b != []
    ensures JoinWith(a + b, sep) == JoinWith(a, sep) + [sep] + JoinWith(b, sep)
  {
    assert (a + b)[1..] == a[1..] + b;
    if |a| > 1 {
      JoinWithConcat(a[1..], b, sep);
    } else {
      assert a[1..] + b == b;
    }
  }

  /** The field that starts at `from` ends at `to`. */
  lemma FieldsStep(s: string, sep: char, from: nat, to: nat)
    requires from < to <= |s| && RunLength(s[from..], sep) == to - from
    ensures Fields(s[from..], sep) == [s[from..to]] + Fields(s[if to < |s| then to + 1 else to..], sep)
  {
    var r, n := s[from..], to - from;
    assert r[0] != sep;
    assert r[..n] == s[from..to];
    assert r[n..] == s[to..];
    if to < |s| {
      assert r[n] == sep == s[to];
      assert s[to..][0] == sep && s[to..][1..] == s[to + 1..];
    }
  }

  /** strtok_r: the next field at or after position `at`, and where the following call resumes. */
  method NextField(s: string, at: nat, sep: char) returns (found: bool, tok: string, next: nat)
    requires at <= |s|
    ensures at <= next <= |s|
    ensures found ==> at < next && Fields(s[at..], sep) == [tok] + Fields(s[next..], sep)
    ensures !found ==> Fields(s[at..], sep) == []
  {
    var i := at;
    while i < |s| && s[i] == sep
      invariant at <= i <= |s|
      invariant Fields(s[i..], sep) == Fields(s[at..], sep)
    {
      assert s[i..][0] == sep && s[i..][1..] == s[i + 1..];
      i := i + 1;
    }
    if i == |s| {
      return false, "", i;
    }
    var j := i;
    while j < |s| && s[j] != sep
      invariant i <= j <= |s|
      invariant RunLength(s[i..], sep) == j - i + RunLength(s[j..], sep)
    {
      assert s[j..][0] == s[j] && s[j..][1..] == s[j + 1..];
      j := j + 1;
    }
    assert j < |s| ==> s[j..][0] == sep;
    FieldsStep(s, sep, i, j);
    next := if j < |s| then j + 1 else j;
    return true, s[i..j], next;
  }

  // ----------------------------------------------------------------- numbers

  predicate IsDigit(c: char) {
    '0' <= c <= '9'
  }

  predicate IsDigits(s: string) {
    forall i :: 0 <= i < |s| ==> IsDigit(s[i])
  }

  function DigitChar(d: nat): (c: char)
    requires d < 10
    ensures IsDigit(c) && c as int - '0' as int == d
  {
    (d + '0' as int) as char
  }

  /** printf's %d (also %ld and %zu) of a number that is not negative. */
  function PrintNat(n: nat): (s: string)
    ensures s != "" && IsDigits(s)
  {
    if n < 10 then [DigitChar(n)] else PrintNat(n / 10) + [DigitChar(n % 10)]
  }

  /** printf's %d. */
  function PrintInt(n: int): (s: string)
    ensures s != ""
  {
    if n < 0 then "-" + PrintNat(-n) else PrintNat(n)
  }

  /** The value of the leading digits of s, appended to those read so far. */
  function ReadDigits(s: string, acc: nat): nat {
    if s == "" || !IsDigit(s[0]) then acc else ReadDigits(s[1..], 10 * acc + (s[0] as int - '0' as int))
  }

  /** atoi: white space, an optional sign, then digits up to the first other character. */
  function Atoi(s: string): int {
    if s != "" && IsSpace(s[0]) then Atoi(s[1..])
    else if s != "" && s[0] == '-' then -(ReadDigits(s[1..], 0) as int)
    else if s != "" && s[0] == '+' then ReadDigits(s[1..], 0)
    else ReadDigits(s, 0)
  }

  lemma {:induction false} ReadDigitsSnoc(s: string, c: char, acc: nat)
    requires IsDigits(s) && IsDigit(c)
    ensures ReadDigits(s + [c], acc) == 10 * ReadDigits(s, acc) + (c as int - '0' as int)
  {
    if s == "" {
      assert s + [c] == [c] && [c][1..] == "";
    } else {
      assert (s + [c])[1..] == s[1..] + [c];
      ReadDigitsSnoc(s[1..], c, 10 * acc + (s[0] as int - '0' as int));
    }
  }

  lemma {:induction false} ReadPrintedNat(n: nat)
    ensures ReadDigits(PrintNat(n), 0) == n
  {
    if n < 10 {
      assert [DigitChar(n)][1..] == "";
    } else {
      ReadPrintedNat(n / 10);
      ReadDigitsSnoc(PrintNat(n / 10), DigitChar(n % 10), 0);
    }
  }

  /** Reading back a printed number gives the number. */
  lemma AtoiOfPrintInt(n: int)
    ensures Atoi(PrintInt(n)) == n
  {
    if n < 0 {
      ReadPrintedNat(-n);
      assert ("-" + PrintNat(-n))[1..] == PrintNat(-n);
    } else {
      ReadPrintedNat(n);
      assert IsDigit(PrintNat(n)[0]);
    }
  }
}
