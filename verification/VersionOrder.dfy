/** Image tags as versions: numeric segments and the order between tags (asset_service.rs). */
module VersionOrder {
  import opened Wrappers
  import opened MachineInts
  import TextOrder

  // ------------------------------------------------------------------- segments

  predicate IsDigit(c: char) {
    '0' <= c <= '9'
  }

  predicate AllDigits(s: string) {
    forall i :: 0 <= i < |s| ==> IsDigit(s[i])
  }

  predicate NoDigits(s: string) {
    forall i :: 0 <= i < |s| ==> !IsDigit(s[i])
  }

  /** How many leading characters are digits. */
  function DigitPrefix(s: string): (n: nat)
    ensures n <= |s| && AllDigits(s[..n]) && (n < |s| ==> !IsDigit(s[n]))
  {
    if s == [] || !IsDigit(s[0]) then 0 else DigitPrefix(s[1..]) + 1
  }

  /** The tag split at every non-digit: never empty as a list, but segments may be. */
  function Segments(s: string): (parts: seq<string>)
    ensures parts != [] && forall i :: 0 <= i < |parts| ==> AllDigits(parts[i])
    decreases |s|
  {
    var n := DigitPrefix(s);
    if n == |s| then [s] else [s[..n]] + Segments(s[n + 1..])
  }

  function Value(digits: string): nat
    requires AllDigits(digits)
  {
    if digits == [] then 0 else Value(digits[..|digits| - 1]) * 10 + (digits[|digits| - 1] as int - '0' as int)
  }

  predicate Fits(digits: string)
    requires AllDigits(digits)
  {
    Value(digits) < TWO_64
  }

  function PowerOfTen(n: nat): nat {
    if n == 0 then 1 else PowerOfTen(n - 1) * 10
  }

  lemma {:induction false} ValueIsBelow(digits: string)
    requires AllDigits(digits)
    ensures Value(digits) < PowerOfTen(|digits|)
  {
    if digits != [] {
      ValueIsBelow(digits[..|digits| - 1]);
    }
  }

  /** A segment fits up to 2^64 - 1, so every segment of at most 19 digits does. */
  lemma SegmentFitsIff(digits: string)
    requires AllDigits(digits)
    ensures Fits(digits) <==> Value(digits) <= 18446744073709551615
    ensures |digits| <= 19 ==> Fits(digits)
  {
    ValueIsBelow(digits);
    if |digits| <= 19 {
      PowerGrows(|digits|, 19);
      assert PowerOfTen(6) == 1000000;
      assert PowerOfTen(13) == 10000000000000;
      assert PowerOfTen(19) == 10000000000000000000;
    }
  }

  lemma {:induction false} PowerGrows(m: nat, n: nat)
    requires m <= n
    ensures PowerOfTen(m) <= PowerOfTen(n)
  {
    if m < n {
      PowerGrows(m, n - 1);
    }
  }

  /** The values of the non-empty segments, None as soon as one does not fit in 64 bits. */
  function Numbers(parts: seq<string>): Option<seq<nat>>
    requires forall i :: 0 <= i < |parts| ==> AllDigits(parts[i])
  {
    if parts == [] then Some([])
    else if parts[0] == [] then Numbers(parts[1..])
    else if !Fits(parts[0]) then None
    else
      var rest := Numbers(parts[1..]);
      if rest.None? then None else Some([Value(parts[0])] + rest.value)
  }

  function ParseNumericVersion(tag: string): Option<seq<nat>> {
    var numbers := Numbers(Segments(tag));
    if numbers == Some([]) then None else numbers
  }

  ghost function Prefixed(nums: seq<nat>, rest: Option<seq<nat>>): Option<seq<nat>> {
    if rest.None? then None else Some(nums + rest.value)
  }

  lemma NumbersStep(nums: seq<nat>, parts: seq<string>)
    requires parts != [] && forall i :: 0 <= i < |parts| ==> AllDigits(parts[i])
    ensures parts[0] == [] ==> Prefixed(nums, Numbers(parts)) == Prefixed(nums, Numbers(parts[1..]))
    ensures parts[0] != [] && !Fits(parts[0]) ==> Prefixed(nums, Numbers(parts)) == None
    ensures parts[0] != [] && Fits(parts[0]) ==>
              Prefixed(nums, Numbers(parts)) == Prefixed(nums + [Value(parts[0])], Numbers(parts[1..]))
  {
    var rest := Numbers(parts[1..]);
    if rest.Some? {
      assert nums + ([Value(parts[0])] + rest.value) == nums + [Value(parts[0])] + rest.value;
    }
  }

  /** parse_numeric_version. */
  method ParseVersion(tag: string) returns (r: Option<seq<nat>>)
    ensures r == ParseNumericVersion(tag)
  {
    var parts := Segments(tag);
    var nums: seq<nat> := [];
    assert parts[0..] == parts;
    assert Numbers(parts).Some? ==> [] + Numbers(parts).value == Numbers(parts).value;
    for k := 0 to |parts|
      invariant Numbers(parts) == Prefixed(nums, Numbers(parts[k..]))
    {
      NumbersStep(nums, parts[k..]);
      assert parts[k..][1..] == parts[k + 1..];
      if parts[k] == [] {
        continue;
      }
      if !Fits(parts[k]) {
        return None;
      }
      nums := nums + [Value(parts[k])];
    }
    assert parts[|parts|..] == [] && nums + [] == nums;
    return if nums == [] then None else Some(nums);
  }

  ghost predicate SomeUnfit(parts: seq<string>)
    requires forall i :: 0 <= i < |parts| ==> AllDigits(parts[i])
  {
    exists k :: 0 <= k < |parts| && !Fits(parts[k])
  }

  lemma SomeUnfitStep(parts: seq<string>)
    requires parts != [] && forall i :: 0 <= i < |parts| ==> AllDigits(parts[i])
    ensures SomeUnfit(parts) <==> !Fits(parts[0]) || SomeUnfit(parts[1..])
  {
    var rest := parts[1..];
    if SomeUnfit(rest) {
      var k :| 0 <= k < |rest| && !Fits(rest[k]);
      assert !Fits(parts[k + 1]);
    }
    if SomeUnfit(parts) {
      var k :| 0 <= k < |parts| && !Fits(parts[k]);
      assert k > 0 ==> rest[k - 1] == parts[k];
    }
  }

  lemma {:induction false} UnfitIff(parts: seq<string>)
    requires forall i :: 0 <= i < |parts| ==> AllDigits(parts[i])
    ensures Numbers(parts).None? <==> SomeUnfit(parts)
  {
    if parts != [] {
      UnfitIff(parts[1..]);
      SomeUnfitStep(parts);
      assert Value("") == 0;
    }
  }

  ghost predicate AllEmpty(parts: seq<string>) {
    forall k :: 0 <= k < |parts| ==> parts[k] == []
  }

  lemma {:induction false} AllEmptyIff(parts: seq<string>)
    requires forall i :: 0 <= i < |parts| ==> AllDigits(parts[i])
    ensures Numbers(parts) == Some([]) <==> AllEmpty(parts)
  {
    if parts != [] {
      var rest := parts[1..];
      AllEmptyIff(rest);
      assert AllEmpty(parts) <==> parts[0] == [] && AllEmpty(rest) by {
        assert forall k :: 0 < k < |parts| ==> parts[k] == rest[k - 1];
      }
    }
  }

  lemma {:induction false} SegmentsEmptyIff(tag: string)
    ensures NoDigits(tag) <==> AllEmpty(Segments(tag))
    decreases |tag|
  {
    var n := DigitPrefix(tag);
    if n == |tag| {
      if tag != [] {
        assert IsDigit(tag[..n][0]);
        assert Segments(tag)[0] != [];
      }
    } else {
      var rest := tag[n + 1..];
      SegmentsEmptyIff(rest);
      var parts := Segments(tag);
      assert parts == [tag[..n]] + Segments(rest);
      assert forall k :: 0 <= k < |Segments(rest)| ==> parts[k + 1] == Segments(rest)[k];
      NoDigitsSplit(tag, n);
      if n > 0 {
        assert IsDigit(tag[..n][0]);
        assert parts[0] != [];
      }
    }
  }

  lemma NoDigitsSplit(tag: string, n: nat)
    requires n == DigitPrefix(tag) && n < |tag|
    ensures NoDigits(tag) <==> n == 0 && NoDigits(tag[n + 1..])
  {
    var rest := tag[n + 1..];
    assert n > 0 ==> IsDigit(tag[0]);
    if NoDigits(tag) {
      forall i | 0 <= i < |rest|
        ensures !IsDigit(rest[i])
      {
        assert rest[i] == tag[n + 1 + i];
      }
    } else {
      var i :| 0 <= i < |tag| && IsDigit(tag[i]);
      assert i > n ==> rest[i - n - 1] == tag[i];
    }
  }

  /** A tag has no version exactly when it holds no digit, or one of its numbers needs more than 64 bits. */
  lemma NonNumericIff(tag: string)
    ensures ParseNumericVersion(tag).None? <==>
            NoDigits(tag) || SomeUnfit(Segments(tag))
  {
    UnfitIff(Segments(tag));
    AllEmptyIff(Segments(tag));
    SegmentsEmptyIff(tag);
  }

  // ----------------------------------------------------------- writing a version

  function Decimal(n: nat): (s: string)
    ensures s != [] && AllDigits(s)
    decreases n
  {
    var d := [(n % 10 + '0' as int) as char];
    if n < 10 then d else Decimal(n / 10) + d
  }

  lemma ValueSnoc(d: string, c: char)
    requires AllDigits(d) && IsDigit(c)
    ensures AllDigits(d + [c]) && Value(d + [c]) == Value(d) * 10 + (c as int - '0' as int)
  {
    assert (d + [c])[..|d|] == d;
  }

  lemma {:induction false} DecimalValue(n: nat)
    ensures Value(Decimal(n)) == n
    decreases n
  {
    var c := (n % 10 + '0' as int) as char;
    if n < 10 {
      ValueSnoc("", c);
      assert Decimal(n) == "" + [c];
    } else {
      DecimalValue(n / 10);
      ValueSnoc(Decimal(n / 10), c);
    }
  }

  /** Dotted notation, as in 0.2.10. */
  function Dotted(version: seq<nat>): string
    requires version != []
  {
    if |version| == 1 then Decimal(version[0]) else Decimal(version[0]) + "." + Dotted(version[1..])
  }

  lemma {:induction false} PrefixOfDigits(d: string, rest: string)
    requires AllDigits(d) && (rest != [] ==> !IsDigit(rest[0]))
    ensures DigitPrefix(d + rest) == |d|
  {
    if d != [] {
      assert (d + rest)[1..] == d[1..] + rest;
      PrefixOfDigits(d[1..], rest);
    }
  }

  lemma LastNumber(n: nat)
    requires n < TWO_64
    ensures Numbers(Segments(Decimal(n))) == Some([n])
  {
    var d := Decimal(n);
    DecimalValue(n);
    PrefixOfDigits(d, "");
    assert d + "" == d && Segments(d) == [d];
    assert [d][1..] == [] && [Value(d)] + [] == [n];
    assert Numbers([d]) == Some([n]);
  }

  lemma FirstNumber(n: nat, rest: string)
    requires n < TWO_64
    ensures Numbers(Segments(Decimal(n) + "." + rest)) == Prefixed([n], Numbers(Segments(rest)))
  {
    var d, s := Decimal(n), Decimal(n) + "." + rest;
    DecimalValue(n);
    PrefixOfDigits(d, "." + rest);
    assert s == d + ("." + rest);
    assert s[..|d|] == d && s[|d| + 1..] == rest;
    assert Segments(s) == [d] + Segments(rest);
    assert ([d] + Segments(rest))[1..] == Segments(rest);
  }

  lemma {:induction false} SegmentsOfDotted(version: seq<nat>)
    requires version != [] && forall i :: 0 <= i < |version| ==> version[i] < TWO_64
    ensures Numbers(Segments(Dotted(version))) == Some(version)
  {
    if |version| == 1 {
      LastNumber(version[0]);
      assert version == [version[0]];
    } else {
      FirstNumber(version[0], Dotted(version[1..]));
      SegmentsOfDotted(version[1..]);
      assert version == [version[0]] + version[1..];
    }
  }

  lemma {:induction false} SkipLabel(lead: string, tag: string)
    requires NoDigits(lead)
    ensures Numbers(Segments(lead + tag)) == Numbers(Segments(tag))
  {
    if lead == [] {
      assert lead + tag == tag;
    } else {
      assert DigitPrefix(lead + tag) == 0;
      assert (lead + tag)[1..] == lead[1..] + tag;
      assert ([""] + Segments(lead[1..] + tag))[1..] == Segments(lead[1..] + tag);
      SkipLabel(lead[1..], tag);
    }
  }

  /** Writing a version in dotted notation behind any prefix without digits and parsing it gives it back. */
  lemma ParseRoundTrip(lead: string, version: seq<nat>)
    requires version != [] && NoDigits(lead) && forall i :: 0 <= i < |version| ==> version[i] < TWO_64
    ensures ParseNumericVersion(lead + Dotted(version)) == Some(version)
  {
    SkipLabel(lead, Dotted(version));
    SegmentsOfDotted(version);
  }

  // ----------------------------------------------------------------------- order

  datatype Ordering = Lower | Same | Higher
  {
    function Flip(): Ordering {
      match this case Lower => Higher case Same => Same case Higher => Lower
    }
  }

  function Head(x: seq<nat>): nat {
    if x == [] then 0 else x[0]
  }

  function Tail(x: seq<nat>): seq<nat> {
    if x == [] then [] else x[1..]
  }

  /** Segment by segment, the shorter one padded with zeros. */
  function CompareNumbers(x: seq<nat>, y: seq<nat>): Ordering
    decreases |x| + |y|
  {
    if x == [] && y == [] then Same
    else if Head(x) < Head(y) then Lower
    else if Head(x) > Head(y) then Higher
    else CompareNumbers(Tail(x), Tail(y))
  }

  function CompareText(a: string, b: string): Ordering {
    if a == b then Same else if TextOrder.Less(a, b) then Lower else Higher
  }

  /** No tag lowest, then tags without a parsable number by text, then versions. */
  function CompareTags(a: Option<string>, b: Option<string>): Ordering {
    match (a, b)
    case (None, None) => Same
    case (None, Some(_)) => Lower
    case (Some(_), None) => Higher
    case (Some(s), Some(t)) =>
      match (ParseNumericVersion(s), ParseNumericVersion(t))
      case (Some(x), Some(y)) => CompareNumbers(x, y)
      case (Some(_), None) => Higher
      case (None, Some(_)) => Lower
      case (None, None) => CompareText(s, t)
  }

  lemma {:induction false} NumbersFlip(x: seq<nat>, y: seq<nat>)
    ensures CompareNumbers(y, x) == CompareNumbers(x, y).Flip()
    decreases |x| + |y|
  {
    if (x != [] || y != []) && Head(x) == Head(y) {
      NumbersFlip(Tail(x), Tail(y));
    }
  }

  lemma {:induction false} NumbersTransitive(x: seq<nat>, y: seq<nat>, z: seq<nat>)
    requires CompareNumbers(x, y) != Higher && CompareNumbers(y, z) != Higher
    ensures CompareNumbers(x, z) != Higher
    ensures CompareNumbers(x, y) == Lower || CompareNumbers(y, z) == Lower ==> CompareNumbers(x, z) == Lower
    decreases |x| + |y| + |z|
  {
    if Head(x) == Head(y) == Head(z) && (x != [] || y != [] || z != []) {
      Unfold(x, y);
      Unfold(y, z);
      Unfold(x, z);
      NumbersTransitive(Tail(x), Tail(y), Tail(z));
    }
  }

  lemma Unfold(x: seq<nat>, y: seq<nat>)
    requires Head(x) == Head(y)
    ensures CompareNumbers(x, y) == CompareNumbers(Tail(x), Tail(y))
  {
  }

  /** The order is total, symmetric under exchange, and transitive across all three kinds of tags. */
  lemma TotalPreorder(a: Option<string>, b: Option<string>, c: Option<string>)
    ensures CompareTags(a, a) == Same
    ensures CompareTags(b, a) == CompareTags(a, b).Flip()
    ensures CompareTags(a, b) != Higher && CompareTags(b, c) != Higher ==> CompareTags(a, c) != Higher
    ensures CompareTags(a, b) == Lower && CompareTags(b, c) != Higher ==> CompareTags(a, c) == Lower
    ensures CompareTags(a, b) != Higher && CompareTags(b, c) == Lower ==> CompareTags(a, c) == Lower
  {
    SameAsItself(a);
    FlipTags(a, b);
    if CompareTags(a, b) != Higher && CompareTags(b, c) != Higher {
      TransitiveTags(a, b, c);
    }
  }

  lemma {:induction false} NumbersReflexive(x: seq<nat>)
    ensures CompareNumbers(x, x) == Same
  {
    if x != [] {
      NumbersReflexive(x[1..]);
    }
  }

  lemma SameAsItself(a: Option<string>)
    ensures CompareTags(a, a) == Same
  {
    if a.Some? && ParseNumericVersion(a.value).Some? {
      NumbersReflexive(ParseNumericVersion(a.value).value);
    }
  }

  lemma FlipTags(a: Option<string>, b: Option<string>)
    ensures CompareTags(b, a) == CompareTags(a, b).Flip()
  {
    if a.Some? && b.Some? {
      var x, y := ParseNumericVersion(a.value), ParseNumericVersion(b.value);
      TextOrder.Trichotomy(a.value, b.value);
      if x.Some? && y.Some? {
        NumbersFlip(x.value, y.value);
      }
    }
  }

  lemma TransitiveTags(a: Option<string>, b: Option<string>, c: Option<string>)
    requires CompareTags(a, b) != Higher && CompareTags(b, c) != Higher
    ensures CompareTags(a, c) != Higher
    ensures CompareTags(a, b) == Lower || CompareTags(b, c) == Lower ==> CompareTags(a, c) == Lower
  {
    if a.Some? && b.Some? && c.Some? {
      var x, y, z := ParseNumericVersion(a.value), ParseNumericVersion(b.value), ParseNumericVersion(c.value);
      if x.Some? && y.Some? && z.Some? {
        NumbersTransitive(x.value, y.value, z.value);
      } else if x.None? && y.None? && z.None? && a != b && b != c {
        TextOrder.Transitive(a.value, b.value, c.value);
        TextOrder.Trichotomy(a.value, c.value);
      }
    }
  }

  function At(x: seq<nat>, i: nat): nat {
    if i < |x| then x[i] else 0
  }

  ghost predicate DiffersFirstAt(x: seq<nat>, y: seq<nat>, i: nat) {
    At(x, i) != At(y, i) && forall j: nat :: j < i ==> At(x, j) == At(y, j)
  }

  /** What the comparison means: the first zero-padded segment that differs decides; without one the versions are the same. */
  lemma {:induction false} FirstDifferenceDecides(x: seq<nat>, y: seq<nat>, i: nat)
    ensures DiffersFirstAt(x, y, i) ==> CompareNumbers(x, y) == (if At(x, i) < At(y, i) then Lower else Higher)
    decreases i
  {
    if DiffersFirstAt(x, y, i) && i > 0 {
      assert At(x, 0) == At(y, 0);
      forall j: nat | j < i
        ensures At(Tail(x), j) == At(x, j + 1) && At(Tail(y), j) == At(y, j + 1)
      {
      }
      assert DiffersFirstAt(Tail(x), Tail(y), i - 1);
      FirstDifferenceDecides(Tail(x), Tail(y), i - 1);
    }
  }

  ghost predicate PaddedEqual(x: seq<nat>, y: seq<nat>) {
    forall i: nat :: At(x, i) == At(y, i)
  }

  lemma PaddedEqualStep(x: seq<nat>, y: seq<nat>)
    ensures PaddedEqual(x, y) <==> Head(x) == Head(y) && PaddedEqual(Tail(x), Tail(y))
  {
    assert forall i: nat :: At(Tail(x), i) == At(x, i + 1) && At(Tail(y), i) == At(y, i + 1);
    assert Head(x) == At(x, 0) && Head(y) == At(y, 0);
    if Head(x) == Head(y) && PaddedEqual(Tail(x), Tail(y)) {
      forall i: nat
        ensures At(x, i) == At(y, i)
      {
        if i > 0 {
          assert At(Tail(x), i - 1) == At(Tail(y), i - 1);
        }
      }
    }
  }

  lemma {:induction false} SameIffPaddedEqual(x: seq<nat>, y: seq<nat>)
    ensures CompareNumbers(x, y) == Same <==> PaddedEqual(x, y)
    decreases |x| + |y|
  {
    if x != [] || y != [] {
      PaddedEqualStep(x, y);
      SameIffPaddedEqual(Tail(x), Tail(y));
    }
  }

  /** compare_image_tags. */
  method CompareImageTags(a: Option<string>, b: Option<string>) returns (r: Ordering)
    ensures r == CompareTags(a, b)
  {
    match (a, b) {
      case (None, None) => return Same;
      case (None, Some(_)) => return Lower;
      case (Some(_), None) => return Higher;
      case (Some(s), Some(t)) =>
        var v := ParseVersion(s);
        var w := ParseVersion(t);
        match (v, w) {
          case (Some(_), None) => return Higher;
          case (None, Some(_)) => return Lower;
          case (None, None) => return CompareText(s, t);
          case (Some(x), Some(y)) =>
            var max := if |x| > |y| then |x| else |y|;
            for i := 0 to max
              invariant CompareNumbers(x, y) == CompareNumbers(From(x, i), From(y, i))
            {
              var xi := if i < |x| then x[i] else 0;
              var yi := if i < |y| then y[i] else 0;
              assert Tail(From(x, i)) == From(x, i + 1) && Tail(From(y, i)) == From(y, i + 1);
              if xi < yi {
                return Lower;
              }
              if xi > yi {
                return Higher;
              }
              Unfold(From(x, i), From(y, i));
            }
            return Same;
        }
    }
  }

  ghost function From(x: seq<nat>, i: nat): seq<nat> {
    if i < |x| then x[i..] else []
  }
}
