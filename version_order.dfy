/** The ordering that `compare-versions` puts on dotted version strings:
    numeric components compared left to right, a missing component
    counting as 0 (so "1.0" and "1.0.0" compare equal and "9.0.0" is older
    than "10.0.0"). */
module VersionOrder {

  function DigitValue(c: char): nat {
    if '0' <= c <= '9' then c as int - '0' as int else 0
  }

  /** The numeric components of a dotted version: "76.0.130.10" gives
      [76, 0, 130, 10]. Characters other than digits and dots are skipped. */
  function Components(v: string): (cs: seq<nat>)
    ensures |cs| >= 1
    decreases |v|
  {
    if v == [] then [0]
    else
      var init := Components(v[..|v| - 1]);
      var c := v[|v| - 1];
      if c == '.' then init + [0]
      else if '0' <= c <= '9' then init[..|init| - 1] + [init[|init| - 1] * 10 + DigitValue(c)]
      else init
  }

  function Head(a: seq<nat>): nat {
    if a == [] then 0 else a[0]
  }

  function Tail(a: seq<nat>): seq<nat> {
    if a == [] then [] else a[1..]
  }

  /** -1, 0 or 1 as `a` is older than, equal to or newer than `b`. */
  function CompareComponents(a: seq<nat>, b: seq<nat>): (c: int)
    ensures -1 <= c <= 1
    decreases |a| + |b|
  {
    if a == [] && b == [] then 0
    else if Head(a) < Head(b) then -1
    else if Head(a) > Head(b) then 1
    else CompareComponents(Tail(a), Tail(b))
  }

  function CompareVersions(a: string, b: string): int {
    CompareComponents(Components(a), Components(b))
  }

  /** `a` is at least as new as `b`. */
  predicate AtLeast(a: string, b: string) {
    CompareVersions(a, b) >= 0
  }

  /** Swapping the arguments negates the comparison. */
  lemma {:induction false} CompareComponentsFlip(a: seq<nat>, b: seq<nat>)
    ensures CompareComponents(b, a) == -CompareComponents(a, b)
    decreases |a| + |b|
  {
    if a == [] && b == [] {
    } else if Head(a) != Head(b) {
    } else {
      CompareComponentsFlip(Tail(a), Tail(b));
    }
  }

  lemma {:induction false} CompareComponentsTransitive(a: seq<nat>, b: seq<nat>, c: seq<nat>)
    requires CompareComponents(a, b) >= 0 && CompareComponents(b, c) >= 0
    ensures CompareComponents(a, c) >= 0
    decreases |a| + |b| + |c|
  {
    if a == [] && b == [] && c == [] {
    } else if Head(a) == Head(b) && Head(b) == Head(c) {
      if Tail(a) == [] && Tail(b) == [] && Tail(c) == [] {
        assert |a| + |b| + |c| > 0;
      }
      assert CompareComponents(Tail(a), Tail(b)) >= 0;
      assert CompareComponents(Tail(b), Tail(c)) >= 0;
      CompareComponentsTransitive(Tail(a), Tail(b), Tail(c));
    }
  }

  /** Every two versions are comparable one way or the other. */
  lemma AtLeastTotal(a: string, b: string)
    ensures AtLeast(a, b) || AtLeast(b, a)
  {
    CompareComponentsFlip(Components(a), Components(b));
  }

  lemma AtLeastTransitive(a: string, b: string, c: string)
    requires AtLeast(a, b) && AtLeast(b, c)
    ensures AtLeast(a, c)
  {
    CompareComponentsTransitive(Components(a), Components(b), Components(c));
  }

  /** Comparing equal is an equivalence: it carries over from a to b to c. */
  lemma SameVersionTransitive(a: string, b: string, c: string)
    requires CompareVersions(a, b) == 0 && CompareVersions(b, c) == 0
    ensures CompareVersions(a, c) == 0
  {
    var ca, cb, cc := Components(a), Components(b), Components(c);
    CompareComponentsFlip(ca, cb);
    CompareComponentsFlip(cb, cc);
    CompareComponentsFlip(ca, cc);
    CompareComponentsTransitive(ca, cb, cc);
    CompareComponentsTransitive(cc, cb, ca);
  }

  /** A missing component counts as 0: "1.0.0" and "1.0" compare equal. */
  lemma MissingComponentsAreZero()
    ensures CompareVersions("1.0.0", "1.0") == 0
  {
    assert "1."[..1] == "1";
    assert Components("1") == [1];
    assert Components("1.") == [1, 0];
    assert "1.0"[..2] == "1.";
    assert Components("1.0") == [1, 0];
    assert "1.0."[..3] == "1.0";
    assert Components("1.0.") == [1, 0, 0];
    assert "1.0.0"[..4] == "1.0.";
    assert Components("1.0.0") == [1, 0, 0];
    assert Tail([1, 0, 0]) == [0, 0] && Tail([1, 0]) == [0];
    assert Tail([0, 0]) == [0] && Tail([0]) == [];
  }

  /** Semantic, not string, ordering: "10" is newer than "9", although
      "9" is the larger string. */
  lemma TenIsNewerThanNine()
    ensures CompareVersions("10", "9") == 1
  {
    assert "10"[..1] == "1";
    assert Components("1") == [1];
    assert Components("10") == [10];
    assert Components("9") == [9];
  }
}
