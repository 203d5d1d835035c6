/** Character classes and text relations shared by both servers (common/utils.c).
    A C string is modelled as a Dafny string; it holds no NUL character. */
module Text {

  /** The three characters that end a sentence. */
  predicate IsDelimiter(c: char) {
    c == '.' || c == '!' || c == '?'
  }

  /** The C locale's isspace: space, tab, newline, vertical tab, form feed, carriage return. */
  predicate IsSpace(c: char) {
    c == ' ' || '\t' <= c <= '\r'
  }

  predicate EndsInDelimiter(s: string) {
    |s| > 0 && IsDelimiter(s[|s| - 1])
  }

  // ---------------------------------------------------------------- trimming

  function TrimLeft(s: string): (r: string)
    ensures |r| <= |s|
  {
    if |s| > 0 && IsSpace(s[0]) then TrimLeft(s[1..]) else s
  }

  function TrimRight(s: string): (r: string)
    ensures |r| <= |s|
  {
    if |s| > 0 && IsSpace(s[|s| - 1]) then TrimRight(s[..|s| - 1]) else s
  }

  function Trim(s: string): string {
    TrimRight(TrimLeft(s))
  }

  ghost predicate Blank(s: string) {
    forall i :: 0 <= i < |s| ==> IsSpace(s[i])
  }

  /** No white space at either end. */
  predicate Tight(s: string) {
    |s| > 0 ==> !IsSpace(s[0]) && !IsSpace(s[|s| - 1])
  }

  lemma {:induction false} TrimLeftParts(s: string) returns (k: nat)
    ensures k <= |s| && Blank(s[..k]) && TrimLeft(s) == s[k..]
    ensures k < |s| ==> !IsSpace(s[k])
  {
    k := 0;
    if |s| > 0 && IsSpace(s[0]) {
      k := TrimLeftParts(s[1..]);
      assert s[..k + 1] == [s[0]] + s[1..][..k];
      assert s[k + 1..] == s[1..][k..];
      k := k + 1;
    }
  }

  lemma {:induction false} TrimRightParts(s: string) returns (k: nat)
    ensures k <= |s| && Blank(s[k..]) && TrimRight(s) == s[..k]
    ensures k > 0 ==> !IsSpace(s[k - 1])
  {
    k := |s|;
    if |s| > 0 && IsSpace(s[|s| - 1]) {
      var t := s[..|s| - 1];
      k := TrimRightParts(t);
      assert s[k..] == t[k..] + [s[|s| - 1]];
      assert s[..k] == t[..k];
    } else {
      assert s == s[..|s|];
    }
  }

  /** Trim removes exactly the maximal runs of white space at the two ends. */
  lemma TrimParts(s: string) returns (pre: string, post: string)
    ensures s == pre + Trim(s) + post && Blank(pre) && Blank(post) && Tight(Trim(s))
  {
    var k := TrimLeftParts(s);
    var t := s[k..];
    var m := TrimRightParts(t);
    pre, post := s[..k], t[m..];
    assert t == t[..m] + t[m..];
    assert s == pre + (t[..m] + post);
    assert pre + (t[..m] + post) == pre + t[..m] + post;
  }

  /** trim_string walks one index from the front and one from the back of its buffer. */
  method TrimString(str: string) returns (r: string)
    ensures r == Trim(str)
  {
    var begin := 0;
    assert str[0..] == str;
    while begin < |str| && IsSpace(str[begin])
      invariant 0 <= begin <= |str|
      invariant TrimLeft(str[begin..]) == TrimLeft(str)
    {
      assert str[begin..][0] == str[begin] && str[begin..][1..] == str[begin + 1..];
      begin := begin + 1;
    }
    assert TrimLeft(str) == str[begin..];
    if begin == |str| {
      return "";
    }
    var end := |str| - 1;
    assert str[begin..end + 1] == str[begin..];
    while end > begin && IsSpace(str[end])
      invariant begin <= end < |str|
      invariant TrimRight(str[begin..end + 1]) == TrimRight(str[begin..])
    {
      assert str[begin..end + 1][end - begin] == str[end] && str[begin..end + 1][..end - begin] == str[begin..end];
      end := end - 1;
    }
    return str[begin..end + 1];
  }

  // ------------------------------------------------- the text without its white space

  /** The non-white-space characters of s, in order. */
  function Ink(s: string): string {
    if s == "" then "" else (if IsSpace(s[0]) then "" else [s[0]]) + Ink(s[1..])
  }

  /** The characters of s other than ' ', in order. */
  function Solid(s: string): string {
    if s == "" then "" else (if s[0] == ' ' then "" else [s[0]]) + Solid(s[1..])
  }

  lemma {:induction false} InkConcat(a: string, b: string)
    ensures Ink(a + b) == Ink(a) + Ink(b)
  {
    if a == "" {
      assert a + b == b;
    } else {
      InkConcat(a[1..], b);
      assert (a + b)[1..] == a[1..] + b && (a + b)[0] == a[0];
      Regroup(if IsSpace(a[0]) then "" else [a[0]], Ink(a[1..]), Ink(b));
    }
  }

  lemma {:induction false} SolidConcat(a: string, b: string)
    ensures Solid(a + b) == Solid(a) + Solid(b)
  {
    if a == "" {
      assert a + b == b;
    } else {
      SolidConcat(a[1..], b);
      assert (a + b)[1..] == a[1..] + b && (a + b)[0] == a[0];
      Regroup(if a[0] == ' ' then "" else [a[0]], Solid(a[1..]), Solid(b));
    }
  }

  lemma {:induction false} InkOfSolid(s: string)
    ensures Ink(Solid(s)) == Ink(s)
  {
    if s != "" {
      InkOfSolid(s[1..]);
      InkConcat(if s[0] == ' ' then "" else [s[0]], Solid(s[1..]));
      assert s[0] != ' ' ==> [s[0]][1..] == "";
    }
  }

  lemma {:induction false} InkOfBlank(s: string)
    requires Blank(s)
    ensures Ink(s) == ""
  {
    if s != "" {
      InkOfBlank(s[1..]);
    }
  }

  lemma InkOfTrim(s: string)
    ensures Ink(Trim(s)) == Ink(s)
  {
    var pre, post := TrimParts(s);
    InkConcat(pre + Trim(s), post);
    InkConcat(pre, Trim(s));
    InkOfBlank(pre);
    InkOfBlank(post);
  }

  // ------------------------------------------------------------ lists of strings

  /** All strings of the list, one after the other. */
  function Flatten(ss: seq<string>): string {
    if ss == [] then "" else ss[0] + Flatten(ss[1..])
  }

  lemma {:induction false} FlattenConcat(a: seq<string>, b: seq<string>)
    ensures Flatten(a + b) == Flatten(a) + Flatten(b)
  {
    if a == [] {
      assert a + b == b;
    } else {
      FlattenConcat(a[1..], b);
      assert (a + b)[1..] == a[1..] + b && (a + b)[0] == a[0];
      Regroup(a[0], Flatten(a[1..]), Flatten(b));
    }
  }

  lemma FlattenOne(s: string)
    ensures Flatten([s]) == s
  {
    assert [s][1..] == [];
  }

  lemma Regroup<T>(a: seq<T>, b: seq<T>, c: seq<T>)
    ensures a + (b + c) == (a + b) + c
  {
  }

  // ---------------------------------------------------------------- subsequences

  /** a can be obtained from b by deleting characters. */
  ghost predicate Subseq(a: string, b: string) {
    || a == ""
    || (b != "" && a[0] == b[0] && Subseq(a[1..], b[1..]))
    || (b != "" && Subseq(a, b[1..]))
  }

  lemma {:induction false} SubseqRefl(a: string)
    ensures Subseq(a, a)
  {
    if a != "" {
      SubseqRefl(a[1..]);
    }
  }

  lemma {:induction false} SubseqTrans(a: string, b: string, c: string)
    requires Subseq(a, b) && Subseq(b, c)
    ensures Subseq(a, c)
    decreases |c|
  {
    if a == "" || b == "" {
    } else if b[0] == c[0] && Subseq(b[1..], c[1..]) {
      if a[0] == b[0] && Subseq(a[1..], b[1..]) {
        SubseqTrans(a[1..], b[1..], c[1..]);
      } else {
        SubseqTrans(a, b[1..], c[1..]);
      }
    } else {
      SubseqTrans(a, b, c[1..]);
    }
  }

  lemma {:induction false} SubseqPrepend(x: string, a: string, b: string)
    requires Subseq(a, b)
    ensures Subseq(a, x + b)
  {
    if x == "" {
      assert x + b == b;
    } else {
      SubseqPrepend(x[1..], a, b);
      assert (x + b)[1..] == x[1..] + b;
    }
  }

  lemma {:induction false} SubseqConcat(a: string, b: string, c: string, d: string)
    requires Subseq(a, b) && Subseq(c, d)
    ensures Subseq(a + c, b + d)
    decreases |b|
  {
    if a == "" {
      SubseqPrepend(b, c, d);
      assert a + c == c;
    } else {
      assert (b + d)[1..] == b[1..] + d;
      assert (a + c)[1..] == a[1..] + c;
      if a[0] == b[0] && Subseq(a[1..], b[1..]) {
        SubseqConcat(a[1..], b[1..], c, d);
      } else {
        SubseqConcat(a, b[1..], c, d);
      }
    }
  }

  /** Deleting white space from both sides keeps the subsequence relation. */
  lemma {:induction false} SubseqInk(a: string, b: string)
    requires Subseq(a, b)
    ensures Subseq(Ink(a), Ink(b))
    decreases |b|
  {
    if a == "" {
    } else if a[0] == b[0] && Subseq(a[1..], b[1..]) {
      SubseqInk(a[1..], b[1..]);
      var h := if IsSpace(a[0]) then "" else [a[0]];
      SubseqRefl(h);
      SubseqConcat(h, h, Ink(a[1..]), Ink(b[1..]));
    } else {
      SubseqInk(a, b[1..]);
      SubseqPrepend(if IsSpace(b[0]) then "" else [b[0]], Ink(a), Ink(b[1..]));
    }
  }

  // ------------------------------------------------------------ when a subsequence is forced

  lemma {:induction false} SubseqDropHead(a: string, b: string)
    requires a != "" && Subseq(a, b)
    ensures Subseq(a[1..], b)
  {
    if !(a[0] == b[0] && Subseq(a[1..], b[1..])) {
      SubseqDropHead(a, b[1..]);
    }
  }

  lemma {:induction false} CancelPrefix(a: string, x: string, y: string)
    requires Subseq(a + x, a + y)
    ensures Subseq(x, y)
  {
    if a == "" {
      assert a + x == x && a + y == y;
    } else {
      assert (a + x)[1..] == a[1..] + x && (a + y)[1..] == a[1..] + y;
      if !Subseq(a[1..] + x, a[1..] + y) {
        SubseqDropHead(a + x, a[1..] + y);
      }
      CancelPrefix(a[1..], x, y);
    }
  }

  lemma {:induction false} CancelLast(x: string, y: string, c: char)
    requires Subseq(x + [c], y + [c])
    ensures Subseq(x, y)
    decreases |y|
  {
    var xc, yc := x + [c], y + [c];
    SubseqLength(xc, yc);
    if x != "" {
      assert xc[1..] == x[1..] + [c] && yc[1..] == y[1..] + [c];
      if xc[0] == yc[0] && Subseq(xc[1..], yc[1..]) {
        CancelLast(x[1..], y[1..], c);
      } else {
        CancelLast(x, y[1..], c);
      }
    }
  }

  lemma {:induction false} CancelSuffix(x: string, y: string, b: string)
    requires Subseq(x + b, y + b)
    ensures Subseq(x, y)
    decreases |b|
  {
    if b == "" {
      assert x + b == x && y + b == y;
    } else {
      var front, c := b[..|b| - 1], b[|b| - 1];
      assert x + b == (x + front) + [c] && y + b == (y + front) + [c];
      CancelLast(x + front, y + front, c);
      CancelSuffix(x, y, front);
    }
  }

  /** Between a common prefix and a common suffix only the middle decides. */
  lemma SubseqMiddle(a: string, x: string, y: string, b: string)
    ensures Subseq(a + x + b, a + y + b) <==> Subseq(x, y)
  {
    if Subseq(a + x + b, a + y + b) {
      CancelSuffix(a + x, a + y, b);
      CancelPrefix(a, x, y);
    }
    if Subseq(x, y) {
      SubseqRefl(a);
      SubseqRefl(b);
      SubseqConcat(a, a, x, y);
      SubseqConcat(a + x, a + y, b, b);
    }
  }

  /** A subsequence is no longer than the whole, and is the whole when it is as long. */
  lemma {:induction false} SubseqLength(a: string, b: string)
    requires Subseq(a, b)
    ensures |a| <= |b| && (|a| == |b| ==> a == b)
    decreases |b|
  {
    if a == "" {
    } else if a[0] == b[0] && Subseq(a[1..], b[1..]) {
      SubseqLength(a[1..], b[1..]);
      assert a == [a[0]] + a[1..] && b == [b[0]] + b[1..];
    } else {
      SubseqLength(a, b[1..]);
    }
  }
}
