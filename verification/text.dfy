/** String helpers shared by the crontab parser and the recipient list:
    decimal numbers, splitting on separator characters, joining. */
module Text {
  import opened Wrappers

  predicate IsDigit(c: char) {
    '0' <= c <= '9'
  }

  predicate AllDigits(s: string) {
    forall i :: 0 <= i < |s| ==> IsDigit(s[i])
  }

  function DigitChar(d: nat): (c: char)
    requires d < 10
    ensures IsDigit(c) && c as int - '0' as int == d
  {
    (d + '0' as int) as char
  }

  /** Decimal rendering of a natural number, without leading zeros. */
  function ShowNat(n: nat): (s: string)
    ensures |s| > 0 && AllDigits(s)
    decreases n
  {
    if n < 10 then [DigitChar(n)] else ShowNat(n / 10) + [DigitChar(n % 10)]
  }

  /** Decimal value of a non-empty string of digits; None for anything else. */
  function ParseNat(s: string): (r: Option<nat>)
    ensures r.Some? <==> |s| > 0 && AllDigits(s)
    decreases |s|
  {
    if |s| == 0 || !IsDigit(s[|s| - 1]) then None
    else
      var d := s[|s| - 1] as int - '0' as int;
      if |s| == 1 then Some(d)
      else match ParseNat(s[..|s| - 1])
        case None => None
        case Some(v) => Some(v * 10 + d)
  }

  lemma {:induction false} ParseShowNat(n: nat)
    ensures ParseNat(ShowNat(n)) == Some(n)
    decreases n
  {
    if n >= 10 {
      var s := ShowNat(n);
      assert s[..|s| - 1] == ShowNat(n / 10);
      ParseShowNat(n / 10);
    }
  }

  /** Position of the first character of `s` that is in `seps`, or |s| if there is none. */
  function IndexOf(s: string, seps: set<char>): (i: nat)
    ensures i <= |s|
    ensures forall j :: 0 <= j < i ==> s[j] !in seps
    ensures i < |s| ==> s[i] in seps
  {
    if |s| == 0 || s[0] in seps then 0 else 1 + IndexOf(s[1..], seps)
  }

  predicate Free(s: string, seps: set<char>) {
    forall i :: 0 <= i < |s| ==> s[i] !in seps
  }

  /** The pieces of `s` between separator characters, empty pieces included. */
  function Split(s: string, seps: set<char>): (parts: seq<string>)
    ensures |parts| >= 1
    ensures forall k :: 0 <= k < |parts| ==> Free(parts[k], seps)
    decreases |s|
  {
    var i := IndexOf(s, seps);
    if i == |s| then [s] else [s[..i]] + Split(s[i + 1..], seps)
  }

  /** The pieces of `parts` joined with `sep` between consecutive pieces. */
  function Join(parts: seq<string>, sep: char): string
  {
    if |parts| == 0 then ""
    else if |parts| == 1 then parts[0]
    else parts[0] + [sep] + Join(parts[1..], sep)
  }

  lemma {:induction false} IndexOfFree(x: string, c: char, y: string, seps: set<char>)
    requires Free(x, seps) && c in seps
    ensures IndexOf(x + [c] + y, seps) == |x|
    ensures IndexOf(x, seps) == |x|
  {
    if |x| > 0 {
      assert (x + [c] + y)[1..] == x[1..] + [c] + y;
      IndexOfFree(x[1..], c, y, seps);
    }
  }

  /** Splitting undoes joining, when no piece contains a separator. */
  lemma {:induction false} SplitJoin(parts: seq<string>, sep: char, seps: set<char>)
    requires |parts| >= 1 && sep in seps
    requires forall k :: 0 <= k < |parts| ==> Free(parts[k], seps)
    ensures Split(Join(parts, sep), seps) == parts
  {
    if |parts| == 1 {
      IndexOfFree(parts[0], sep, "", seps);
    } else {
      var rest := Join(parts[1..], sep);
      var s := parts[0] + [sep] + rest;
      assert Join(parts, sep) == s;
      IndexOfFree(parts[0], sep, rest, seps);
      assert s[..|parts[0]|] == parts[0];
      assert s[|parts[0]| + 1..] == rest;
      assert Split(s, seps) == [parts[0]] + Split(rest, seps);
      SplitJoin(parts[1..], sep, seps);
      assert parts == [parts[0]] + parts[1..];
    }
  }

  lemma JoinCons(head: string, tail: seq<string>, sep: char)
    requires |tail| >= 1
    ensures Join([head] + tail, sep) == head + [sep] + Join(tail, sep)
  {
    assert ([head] + tail)[1..] == tail;
  }

  lemma SplitAt(s: string, seps: set<char>)
    requires IndexOf(s, seps) < |s|
    ensures Split(s, seps) == [s[..IndexOf(s, seps)]] + Split(s[IndexOf(s, seps) + 1..], seps)
  {
  }

  lemma SliceAround(s: string, i: nat)
    requires i < |s|
    ensures s == s[..i] + [s[i]] + s[i + 1..]
  {
  }

  /** Joining undoes splitting on a single separator character. */
  lemma {:induction false} JoinSplit(s: string, sep: char)
    ensures Join(Split(s, {sep}), sep) == s
    decreases |s|
  {
    var i := IndexOf(s, {sep});
    if i == |s| {
      assert Split(s, {sep}) == [s];
    } else {
      var rest := s[i + 1..];
      var tail := Split(rest, {sep});
      JoinSplit(rest, sep);
      SplitAt(s, {sep});
      JoinCons(s[..i], tail, sep);
      SliceAround(s, i);
    }
  }

  /** The non-empty pieces, in order. */
  function NonEmpty(parts: seq<string>): (r: seq<string>)
    ensures forall k :: 0 <= k < |r| ==> |r[k]| > 0
    ensures forall p :: p in r <==> p in parts && |p| > 0
  {
    if |parts| == 0 then []
    else if |parts[0]| == 0 then NonEmpty(parts[1..])
    else [parts[0]] + NonEmpty(parts[1..])
  }

  lemma {:induction false} NonEmptyKeeps(parts: seq<string>)
    requires forall k :: 0 <= k < |parts| ==> |parts[k]| > 0
    ensures NonEmpty(parts) == parts
  {
    if |parts| > 0 {
      var tail := parts[1..];
      TailKeepsNonEmpty(parts);
      NonEmptyKeeps(tail);
      NonEmptyHead(parts);
    }
  }

  lemma TailKeepsNonEmpty(parts: seq<string>)
    requires |parts| > 0
    requires forall k :: 0 <= k < |parts| ==> |parts[k]| > 0
    ensures forall k :: 0 <= k < |parts[1..]| ==> |parts[1..][k]| > 0
  {
    forall k | 0 <= k < |parts[1..]| ensures |parts[1..][k]| > 0 {
      assert parts[1..][k] == parts[k + 1];
    }
  }

  lemma NonEmptyHead(parts: seq<string>)
    requires |parts| > 0 && |parts[0]| > 0 && NonEmpty(parts[1..]) == parts[1..]
    ensures NonEmpty(parts) == parts
  {
    assert NonEmpty(parts) == [parts[0]] + parts[1..];
  }

  /** `sub` occurs in `s` as a contiguous piece. */
  predicate Contains(s: string, sub: string) {
    exists p :: 0 <= p <= |s| && OccursAt(s, sub, p)
  }

  predicate OccursAt(s: string, sub: string, p: int) {
    0 <= p <= |s| - |sub| && s[p..p + |sub|] == sub
  }

  lemma ContainsMiddle(a: string, sub: string, b: string)
    ensures Contains(a + sub + b, sub)
  {
    var s := a + sub + b;
    assert s[|a|..|a| + |sub|] == sub;
    assert OccursAt(s, sub, |a|);
  }

  lemma ContainsLeft(a: string, b: string, sub: string)
    requires Contains(a, sub)
    ensures Contains(a + b, sub)
  {
    var p :| 0 <= p <= |a| && OccursAt(a, sub, p);
    assert (a + b)[p..p + |sub|] == a[p..p + |sub|];
    assert OccursAt(a + b, sub, p);
  }

  lemma ContainsRight(a: string, b: string, sub: string)
    requires Contains(b, sub)
    ensures Contains(a + b, sub)
  {
    var p :| 0 <= p <= |b| && OccursAt(b, sub, p);
    assert (a + b)[|a| + p..|a| + p + |sub|] == b[p..p + |sub|];
    assert OccursAt(a + b, sub, |a| + p);
  }

  lemma ContainsItself(sub: string)
    ensures Contains(sub, sub)
  {
    assert sub[0..|sub|] == sub;
    assert OccursAt(sub, sub, 0);
  }

  /** Whether some '<' in `s` is directly followed by `c`. */
  predicate OpensTag(s: string, c: char) {
    exists p :: 0 <= p < |s| - 1 && s[p] == '<' && s[p + 1] == c
  }

  /** A piece starting with '<' followed by `c` cannot occur where no '<' is followed by `c`. */
  lemma NoTagNoPiece(s: string, sub: string, c: char)
    requires |sub| >= 2 && sub[0] == '<' && sub[1] == c && !OpensTag(s, c)
    ensures !Contains(s, sub)
  {
  }

  /** Gluing two pieces opens no tag when neither does and the seam does not either. */
  lemma OpensTagConcat(a: string, b: string, c: char)
    requires !OpensTag(a, c) && !OpensTag(b, c)
    requires |a| == 0 || |b| == 0 || a[|a| - 1] != '<' || b[0] != c
    ensures !OpensTag(a + b, c)
  {
    var s := a + b;
    forall p | 0 <= p < |s| - 1 && s[p] == '<'
      ensures s[p + 1] != c
    {
      if p + 1 < |a| {
        assert a[p] == s[p] && a[p + 1] == s[p + 1];
      } else if p >= |a| {
        assert b[p - |a|] == s[p] && b[p - |a| + 1] == s[p + 1];
      } else {
        assert a[|a| - 1] == s[p] && b[0] == s[p + 1];
      }
    }
  }
}
