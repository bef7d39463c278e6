/**
 * The parts of Go's `strings` package that the wrapper calls, on `string`
 * (a sequence of characters): TrimPrefix, TrimSuffix, Index, Replace with
 * a negative count, and Split/Join as an independent reference for Replace.
 * Decimal rendering of naturals (strconv) is here too.
 */
module GoStrings {
  import opened Wrappers

  predicate HasPrefix(s: string, p: string) {
    |p| <= |s| && s[..|p|] == p
  }

  predicate HasSuffix(s: string, p: string) {
    |p| <= |s| && s[|s| - |p|..] == p
  }

  /** strings.TrimPrefix: drops one copy of `p` from the front, if it is there. */
  function TrimPrefix(s: string, p: string): (r: string)
    ensures HasPrefix(s, p) ==> s == p + r
    ensures !HasPrefix(s, p) ==> r == s
  {
    if HasPrefix(s, p) then s[|p|..] else s
  }

  /** strings.TrimSuffix: drops one copy of `p` from the end, if it is there. */
  function TrimSuffix(s: string, p: string): (r: string)
    ensures HasSuffix(s, p) ==> s == r + p
    ensures !HasSuffix(s, p) ==> r == s
  {
    if HasSuffix(s, p) then s[..|s| - |p|] else s
  }

  /** `p` occurs in `s` starting at position `i`. */
  predicate OccursAt(s: string, p: string, i: int) {
    0 <= i && i + |p| <= |s| && s[i..i + |p|] == p
  }

  /** No occurrence of `p` starts anywhere in `s`. */
  predicate Free(s: string, p: string) {
    forall i :: 0 <= i <= |s| ==> !OccursAt(s, p, i)
  }

  lemma OccursAtTail(s: string, p: string, i: int)
    requires |s| > 0 && 0 <= i
    ensures OccursAt(s[1..], p, i) <==> OccursAt(s, p, i + 1)
  {
    if 0 <= i && i + |p| <= |s| - 1 {
      assert s[1..][i..i + |p|] == s[i + 1..i + 1 + |p|];
    }
  }

  /** strings.Index: the position of the leftmost occurrence of `p` in `s`. */
  function Index(s: string, p: string): (r: Option<nat>)
    ensures r.Some? ==> OccursAt(s, p, r.value)
    ensures r.Some? ==> forall j :: 0 <= j < r.value ==> !OccursAt(s, p, j)
    ensures r.None? ==> Free(s, p)
    decreases |s|
  {
    if |s| < |p| then None
    else if s[..|p|] == p then Some(0)
    else
      match Index(s[1..], p)
      case None =>
        assert Free(s, p) by {
          forall j | 0 <= j <= |s| ensures !OccursAt(s, p, j) {
            if j > 0 { OccursAtTail(s, p, j - 1); }
          }
        }
        None
      case Some(k) =>
        assert OccursAt(s, p, k + 1) by { OccursAtTail(s, p, k); }
        assert forall j :: 0 <= j < k + 1 ==> !OccursAt(s, p, j) by {
          forall j | 0 <= j < k + 1 ensures !OccursAt(s, p, j) {
            if j > 0 { OccursAtTail(s, p, j - 1); }
          }
        }
        Some(k + 1)
  }

  /**
   * strings.Replace(s, p, rep, -1) for a non-empty `p`: scans left to right
   * and replaces every non-overlapping occurrence of `p` by `rep`. Text
   * without `p` comes back unchanged, and a replacement no longer than `p`
   * shortens the text by at least the difference once `p` occurs.
   */
  function ReplaceAll(s: string, p: string, rep: string): (r: string)
    requires p != []
    ensures Free(s, p) ==> r == s
    ensures |rep| <= |p| ==> |r| <= |s|
    ensures |rep| <= |p| && !Free(s, p) ==> |r| <= |s| - (|p| - |rep|)
    decreases |s|
  {
    match Index(s, p)
    case None => s
    case Some(i) => s[..i] + rep + ReplaceAll(s[i + |p|..], p, rep)
  }

  /** strings.Split(s, p) for a non-empty `p`: the pieces between the occurrences of `p`. */
  function Split(s: string, p: string): (pieces: seq<string>)
    requires p != []
    ensures |pieces| > 0
    decreases |s|
  {
    match Index(s, p)
    case None => [s]
    case Some(i) => [s[..i]] + Split(s[i + |p|..], p)
  }

  /** strings.Join: the pieces with `sep` between consecutive ones. */
  function Join(pieces: seq<string>, sep: string): string
    requires |pieces| > 0
  {
    if |pieces| == 1 then pieces[0] else pieces[0] + sep + Join(pieces[1..], sep)
  }

  /** Joining what Split cut out, with the pattern itself, gives back the input. */
  lemma {:induction false} JoinSplit(s: string, p: string)
    requires p != []
    ensures Join(Split(s, p), p) == s
    decreases |s|
  {
    match Index(s, p)
    case None =>
    case Some(i) =>
      var tail := s[i + |p|..];
      JoinSplit(tail, p);
      var pieces := Split(s, p);
      assert pieces == [s[..i]] + Split(tail, p);
      assert pieces[1..] == Split(tail, p);
      assert Join(pieces, p) == s[..i] + p + Join(Split(tail, p), p);
      assert s == s[..i] + p + tail;
  }

  /**
   * The pieces of Split are the leftmost cut: every piece but the last is
   * followed by an occurrence of `p` and contains none that starts inside it,
   * even one that runs into the separator; the last piece contains none at all.
   */
  lemma {:induction false} SplitLeftmost(s: string, p: string)
    requires p != []
    ensures var pieces := Split(s, p);
      && (forall k :: 0 <= k < |pieces| - 1 ==>
            forall j :: 0 <= j < |pieces[k]| ==> !OccursAt(pieces[k] + p, p, j))
      && Free(pieces[|pieces| - 1], p)
    decreases |s|
  {
    match Index(s, p)
    case None =>
    case Some(i) =>
      var tail := s[i + |p|..];
      SplitLeftmost(tail, p);
      var pieces := Split(s, p);
      assert pieces == [s[..i]] + Split(tail, p);
      forall j | 0 <= j < i ensures !OccursAt(s[..i] + p, p, j) {
        assert s[..i + |p|] == s[..i] + p;
        assert (s[..i] + p)[j..j + |p|] == s[..i + |p|][j..j + |p|] == s[j..j + |p|];
        assert !OccursAt(s, p, j);
      }
  }

  /** Replace-all is Join of Split with the replacement as separator. */
  lemma {:induction false} ReplaceAllIsJoinOfSplit(s: string, p: string, rep: string)
    requires p != []
    ensures ReplaceAll(s, p, rep) == Join(Split(s, p), rep)
    decreases |s|
  {
    match Index(s, p)
    case None =>
    case Some(i) =>
      var tail := s[i + |p|..];
      ReplaceAllIsJoinOfSplit(tail, p, rep);
      var pieces := Split(s, p);
      assert pieces == [s[..i]] + Split(tail, p);
      assert pieces[1..] == Split(tail, p);
      assert Join(pieces, rep) == s[..i] + rep + Join(Split(tail, p), rep);
  }

  /**
   * When `p` first occurs right after a prefix `a`, Replace keeps `a`,
   * puts `rep` for that occurrence and carries on after it.
   */
  lemma ReplaceAllStep(a: string, p: string, b: string, rep: string)
    requires p != []
    requires forall j :: 0 <= j < |a| ==> !OccursAt(a + p, p, j)
    ensures ReplaceAll(a + p + b, p, rep) == a + rep + ReplaceAll(b, p, rep)
  {
    var s := a + p + b;
    assert OccursAt(s, p, |a|) by { assert s[|a|..|a| + |p|] == p; }
    forall j | 0 <= j < |a| ensures !OccursAt(s, p, j) {
      if OccursAt(s, p, j) {
        assert s[j..j + |p|] == (a + p)[j..j + |p|];
        assert OccursAt(a + p, p, j);
      }
    }
    var r := Index(s, p);
    assert r == Some(|a|);
    assert s[..|a|] == a && s[|a| + |p|..] == b;
  }

  /** One differing character rules an occurrence out. */
  lemma MismatchAt(s: string, p: string, j: nat, d: nat)
    requires d < |p| && j + d < |s| && s[j + d] != p[d]
    ensures !OccursAt(s, p, j)
  {
  }

  /** A string without the first character of `p` contains no occurrence of `p`. */
  lemma FreeWithoutFirstChar(s: string, p: string)
    requires p != [] && forall i :: 0 <= i < |s| ==> s[i] != p[0]
    ensures Free(s, p)
  {
    forall j | 0 <= j <= |s| ensures !OccursAt(s, p, j) {
      if j < |s| { MismatchAt(s, p, j, 0); }
    }
  }

  /** The decimal digits of `n`, as strconv.Itoa writes them. */
  function Decimal(n: nat): (r: string)
    ensures |r| > 0
    ensures forall i :: 0 <= i < |r| ==> '0' <= r[i] <= '9'
    ensures |r| > 1 ==> r[0] != '0'
  {
    if n < 10 then [Digit(n)] else Decimal(n / 10) + [Digit(n % 10)]
  }

  function Digit(d: nat): (c: char)
    requires d < 10
    ensures '0' <= c <= '9' && c as int - '0' as int == d
  {
    ('0' as int + d) as char
  }

  /** The number a string of decimal digits denotes (strconv.Atoi on such a string). */
  function DigitsValue(r: string): nat
    requires forall i :: 0 <= i < |r| ==> '0' <= r[i] <= '9'
  {
    if |r| == 0 then 0 else DigitsValue(r[..|r| - 1]) * 10 + (r[|r| - 1] as int - '0' as int)
  }

  /** Reading the digits back gives the number. */
  lemma {:induction false} DecimalValue(n: nat)
    ensures DigitsValue(Decimal(n)) == n
  {
    if n >= 10 {
      DecimalValue(n / 10);
      var r := Decimal(n);
      assert r[..|r| - 1] == Decimal(n / 10);
    }
  }
}
