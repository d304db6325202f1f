/** Update versions and manifests (packages/update/src/manifest.ts): parsing, precedence and the choice
    of the artifact for a target. */
module Versions {
  import opened Text
  import opened Wrappers

  datatype Version = Version(major: nat, minor: nat, patch: nat, prerelease: seq<string>)

  const MAX_SAFE_INTEGER := 0x1f_ffff_ffff_ffff

  // ---- parsing

  predicate IsDigit(c: char) {
    '0' <= c <= '9'
  }

  predicate IsNumeric(text: string) {
    text != "" && forall i :: 0 <= i < |text| ==> IsDigit(text[i])
  }

  predicate IsIdentifier(text: string) {
    text != "" && forall i :: 0 <= i < |text| ==>
      IsDigit(text[i]) || 'A' <= text[i] <= 'Z' || 'a' <= text[i] <= 'z' || text[i] == '-'
  }

  predicate HasLeadingZero(text: string) {
    |text| > 1 && text[0] == '0'
  }

  function NumberOf(digits: string): nat
    requires forall i :: 0 <= i < |digits| ==> IsDigit(digits[i])
  {
    if digits == "" then 0
    else
      assert IsDigit(digits[|digits| - 1]);
      10 * NumberOf(digits[..|digits| - 1]) + (digits[|digits| - 1] as int - '0' as int)
  }

  predicate ValidNumber(text: string) {
    IsNumeric(text) && !HasLeadingZero(text) && NumberOf(text) <= MAX_SAFE_INTEGER
  }

  predicate ValidPrerelease(identifier: string) {
    IsIdentifier(identifier) && !(IsNumeric(identifier) && HasLeadingZero(identifier))
  }

  /** What stands before the first `c`, and what stands after it when there is one. */
  function Cut(text: string, c: char): (string, Option<string>) {
    if text == "" then ("", None)
    else if text[0] == c then ("", Some(text[1..]))
    else
      var (head, tail) := Cut(text[1..], c);
      ([text[0]] + head, tail)
  }

  predicate ValidBuild(build: string) {
    var identifiers := Split(build, '.');
    forall i :: 0 <= i < |identifiers| ==> IsIdentifier(identifiers[i])
  }

  /** What parsing guarantees: numeric identifiers without leading zeros. */
  ghost predicate Wellformed(version: Version) {
    forall i :: 0 <= i < |version.prerelease| ==> ValidPrerelease(version.prerelease[i])
  }

  /** The part of `parseVersion` before the build metadata. */
  function ParseRest(rest: string): (r: Option<Version>)
    ensures r.Some? ==> Wellformed(r.value)
  {
    var (core, suffix) := Cut(rest, '-');
    var prerelease := if suffix.Some? then Split(suffix.value, '.') else [];
    var numbers := Split(core, '.');
    if |numbers| == 3 && (forall i :: 0 <= i < 3 ==> ValidNumber(numbers[i]))
       && (forall i :: 0 <= i < |prerelease| ==> ValidPrerelease(prerelease[i]))
    then Some(Version(NumberOf(numbers[0]), NumberOf(numbers[1]), NumberOf(numbers[2]), prerelease))
    else None
  }

  /** `parseVersion`: `None` where the source throws. */
  function Parse(text: string): (r: Option<Version>)
    ensures r.Some? ==> Wellformed(r.value)
  {
    var (rest, build) := Cut(text, '+');
    if build.Some? && !ValidBuild(build.value) then None else ParseRest(rest)
  }

  // ---- precedence

  function Pow2(exponent: nat): nat {
    if exponent == 0 then 1 else 2 * Pow2(exponent - 1)
  }

  function RoundHalfEven(n: nat, unit: nat): nat
    requires unit > 0
  {
    var q, r := n / unit, n % unit;
    if 2 * r < unit || (2 * r == unit && q % 2 == 0) then q * unit else (q + 1) * unit
  }

  function RoundFrom(n: nat, unit: nat): nat
    requires unit > 0
    decreases n - unit
  {
    if n / unit <= MAX_SAFE_INTEGER then RoundHalfEven(n, unit)
    else
      MulMonotone(2, n / unit, unit);
      RoundFrom(n, 2 * unit)
  }

  lemma MulMonotone(a: nat, b: nat, c: nat)
    requires a <= b
    ensures a * c <= b * c
  {
  }

  /** `Number(digits)`: the binary64 value nearest to the integer.  Values past the binary64 range, which
      all become `Infinity`, are represented by 2^1024. */
  function Rounded(n: nat): nat {
    var r := RoundFrom(n, 1);
    if n <= MAX_SAFE_INTEGER then r else if r >= Pow2(1024) then Pow2(1024) else r
  }

  lemma RoundedExact(n: nat)
    requires n <= MAX_SAFE_INTEGER
    ensures Rounded(n) == n
  {
    assert n / 1 == n && n % 1 == 0;
  }

  /** The answer for two different prerelease identifiers. */
  function IdentifierOrder(left: string, right: string): int {
    if IsNumeric(left) && IsNumeric(right) then
      if Rounded(NumberOf(left)) < Rounded(NumberOf(right)) then -1 else 1
    else if IsNumeric(left) != IsNumeric(right) then (if IsNumeric(left) then -1 else 1)
    else if Less(left, right) then -1 else 1
  }

  function IdentifiersOrder(left: seq<string>, right: seq<string>): int {
    if left == [] then (if right == [] then 0 else -1)
    else if right == [] then 1
    else if left[0] == right[0] then IdentifiersOrder(left[1..], right[1..])
    else IdentifierOrder(left[0], right[0])
  }

  function PrereleaseOrder(left: seq<string>, right: seq<string>): int {
    if left == [] then (if right == [] then 0 else 1)
    else if right == [] then -1
    else IdentifiersOrder(left, right)
  }

  function Order(left: Version, right: Version): int {
    if left.major != right.major then (if left.major < right.major then -1 else 1)
    else if left.minor != right.minor then (if left.minor < right.minor then -1 else 1)
    else if left.patch != right.patch then (if left.patch < right.patch then -1 else 1)
    else PrereleaseOrder(left.prerelease, right.prerelease)
  }

  /** `compareUpdateVersions`; `None` where one side does not parse. */
  function Compare(left: string, right: string): Option<int> {
    var (l, r) := (Parse(left), Parse(right));
    if l.Some? && r.Some? then Some(Order(l.value, r.value)) else None
  }

  lemma {:induction false} OrderFromIndex(left: seq<string>, right: seq<string>, index: nat)
    requires index <= |left| && index <= |right| && left[..index] == right[..index]
    ensures IdentifiersOrder(left, right) == IdentifiersOrder(left[index..], right[index..])
  {
    if index > 0 {
      assert left[0] == left[..index][0] == right[..index][0] == right[0];
      assert left[1..][..index - 1] == left[..index][1..] == right[..index][1..] == right[1..][..index - 1];
      OrderFromIndex(left[1..], right[1..], index - 1);
      assert left[1..][index - 1..] == left[index..] && right[1..][index - 1..] == right[index..];
    }
  }

  /** `comparePrerelease`, the loop over positions. */
  method ComparePrerelease(left: seq<string>, right: seq<string>) returns (order: int)
    ensures order == PrereleaseOrder(left, right)
  {
    if |left| == 0 && |right| == 0 {
      return 0;
    }
    if |left| == 0 {
      return 1;
    }
    if |right| == 0 {
      return -1;
    }
    var length := if |left| < |right| then |right| else |left|;
    var index := 0;
    while index < length
      invariant 0 <= index <= length
      invariant index <= |left| && index <= |right| && left[..index] == right[..index]
    {
      OrderFromIndex(left, right, index);
      if index == |left| {
        return -1;
      }
      if index == |right| {
        return 1;
      }
      if left[index] == right[index] {
        assert left[..index + 1] == left[..index] + [left[index]];
        assert right[..index + 1] == right[..index] + [right[index]];
        index := index + 1;
        continue;
      }
      var leftNumeric, rightNumeric := IsNumeric(left[index]), IsNumeric(right[index]);
      if leftNumeric && rightNumeric {
        return if Rounded(NumberOf(left[index])) < Rounded(NumberOf(right[index])) then -1 else 1;
      }
      if leftNumeric != rightNumeric {
        return if leftNumeric then -1 else 1;
      }
      return if Less(left[index], right[index]) then -1 else 1;
    }
    OrderFromIndex(left, right, index);
    return 0;
  }

  // ---- section 11 of Semantic Versioning 2.0.0, stated declaratively

  /** 11.4.1 to 11.4.3 for two identifiers. */
  predicate IdentifierPrecedes(left: string, right: string) {
    if IsNumeric(left) && IsNumeric(right) then NumberOf(left) < NumberOf(right)
    else if IsNumeric(left) || IsNumeric(right) then IsNumeric(left)
    else Less(left, right)
  }

  /** 11.4: the first difference decides, and with none the longer list is higher. */
  ghost predicate ListPrecedes(left: seq<string>, right: seq<string>) {
    || left < right
    || exists k :: 0 <= k < |left| && k < |right| && left[..k] == right[..k] && IdentifierPrecedes(left[k], right[k])
  }

  /** 11.2 and 11.3. */
  ghost predicate Precedes(left: Version, right: Version) {
    || left.major < right.major
    || (left.major == right.major && left.minor < right.minor)
    || (left.major == right.major && left.minor == right.minor && left.patch < right.patch)
    || (left.major == right.major && left.minor == right.minor && left.patch == right.patch
        && (if left.prerelease == [] then false
            else right.prerelease == [] || ListPrecedes(left.prerelease, right.prerelease)))
  }

  /** Every numeric prerelease identifier is below 2^53, so that `Number` is exact. */
  ghost predicate SmallNumbers(identifiers: seq<string>) {
    forall i :: 0 <= i < |identifiers| && IsNumeric(identifiers[i]) ==> NumberOf(identifiers[i]) <= MAX_SAFE_INTEGER
  }

  ghost predicate AllValid(identifiers: seq<string>) {
    forall i :: 0 <= i < |identifiers| ==> ValidPrerelease(identifiers[i])
  }

  lemma {:induction false} NumberInjective(left: string, right: string)
    requires IsNumeric(left) && IsNumeric(right) && !HasLeadingZero(left) && !HasLeadingZero(right)
    requires NumberOf(left) == NumberOf(right)
    ensures left == right
  {
    NumberDigits(left);
    NumberDigits(right);
    if |left| == 1 || |right| == 1 {
      assert left[..0] == right[..0] == "";
      if |left| > 1 {
        NumberPositive(left[..|left| - 1]);
      }
      if |right| > 1 {
        NumberPositive(right[..|right| - 1]);
      }
    } else {
      NumberInjective(left[..|left| - 1], right[..|right| - 1]);
      assert left == left[..|left| - 1] + [left[|left| - 1]];
      assert right == right[..|right| - 1] + [right[|right| - 1]];
    }
  }

  lemma NumberDigits(text: string)
    requires IsNumeric(text)
    ensures NumberOf(text) == 10 * NumberOf(text[..|text| - 1]) + NumberOf(text) % 10
    ensures NumberOf(text) % 10 == text[|text| - 1] as int - '0' as int
  {
  }

  lemma {:induction false} NumberPositive(text: string)
    requires IsNumeric(text) && text[0] != '0'
    ensures NumberOf(text) > 0
  {
    if |text| > 1 {
      NumberPositive(text[..|text| - 1]);
    }
  }

  /** Two identifiers that differ are told apart, one way or the other. */
  lemma IdentifierDecides(left: string, right: string)
    requires ValidPrerelease(left) && ValidPrerelease(right) && left != right
    requires SmallNumbers([left, right])
    ensures IdentifierOrder(left, right) == if IdentifierPrecedes(left, right) then -1 else 1
    ensures IdentifierPrecedes(left, right) <==> !IdentifierPrecedes(right, left)
  {
    if IsNumeric(left) && IsNumeric(right) {
      assert NumberOf([left, right][0]) <= MAX_SAFE_INTEGER && NumberOf([left, right][1]) <= MAX_SAFE_INTEGER;
      RoundedExact(NumberOf(left));
      RoundedExact(NumberOf(right));
      if NumberOf(left) == NumberOf(right) {
        NumberInjective(left, right);
      }
    } else if !IsNumeric(left) && !IsNumeric(right) {
      LessTotal(left, right);
      if Less(left, right) && Less(right, left) {
        LessTransitive(left, right, left);
        LessIrreflexive(left);
      }
    }
  }

  lemma {:induction false} ListOrderIsSection11(left: seq<string>, right: seq<string>)
    requires AllValid(left) && AllValid(right) && SmallNumbers(left) && SmallNumbers(right)
    ensures IdentifiersOrder(left, right) in {-1, 0, 1}
    ensures IdentifiersOrder(left, right) == -1 <==> ListPrecedes(left, right)
    ensures IdentifiersOrder(left, right) == 1 <==> ListPrecedes(right, left)
    ensures IdentifiersOrder(left, right) == 0 <==> left == right
  {
    if left != [] && right != [] {
      var (l, r) := (left[0], right[0]);
      assert left == [l] + left[1..] && right == [r] + right[1..];
      if l == r {
        ListOrderIsSection11(left[1..], right[1..]);
        LessIrreflexive(l);
        PrecedesTail(left, right);
        PrecedesTail(right, left);
      } else {
        assert SmallNumbers([l, r]);
        IdentifierDecides(l, r);
        PrecedesHead(left, right);
        PrecedesHead(right, left);
      }
    } else {
      assert !ListPrecedes(left, []) && !ListPrecedes(right, []);
    }
  }

  lemma PrecedesTail(left: seq<string>, right: seq<string>)
    requires left != [] && right != [] && left[0] == right[0]
    requires !IdentifierPrecedes(left[0], left[0])
    ensures ListPrecedes(left, right) <==> ListPrecedes(left[1..], right[1..])
  {
    var (l, r) := (left[1..], right[1..]);
    assert left < right <==> l < r by {
      assert left == [left[0]] + l && right == [left[0]] + r;
    }
    if k :| 0 <= k < |left| && k < |right| && left[..k] == right[..k] && IdentifierPrecedes(left[k], right[k]) {
      assert l[..k - 1] == left[..k][1..] && r[..k - 1] == right[..k][1..];
      assert l[k - 1] == left[k] && r[k - 1] == right[k];
    }
    if k :| 0 <= k < |l| && k < |r| && l[..k] == r[..k] && IdentifierPrecedes(l[k], r[k]) {
      assert left[..k + 1] == [left[0]] + l[..k] && right[..k + 1] == [right[0]] + r[..k];
      assert left[k + 1] == l[k] && right[k + 1] == r[k];
    }
  }

  lemma PrefixHead(left: seq<string>, right: seq<string>, k: nat)
    requires 0 < |left| && 0 < |right| && k <= |left| && k <= |right| && left[..k] == right[..k]
    ensures k > 0 ==> left[0] == right[0]
  {
    if k > 0 {
      assert left[0] == left[..k][0] && right[0] == right[..k][0];
    }
  }

  lemma PrecedesHead(left: seq<string>, right: seq<string>)
    requires left != [] && right != [] && left[0] != right[0]
    ensures ListPrecedes(left, right) <==> IdentifierPrecedes(left[0], right[0])
  {
    if k :| 0 <= k < |left| && k < |right| && left[..k] == right[..k] && IdentifierPrecedes(left[k], right[k]) {
      PrefixHead(left, right, k);
    }
    if IdentifierPrecedes(left[0], right[0]) {
      assert left[..0] == right[..0];
    }
  }

  /** The comparison of two versions is the precedence of section 11, with equality exactly for equal
      triples and identifier lists. */
  lemma OrderIsSection11(left: Version, right: Version)
    requires Wellformed(left) && Wellformed(right)
    requires SmallNumbers(left.prerelease) && SmallNumbers(right.prerelease)
    ensures Order(left, right) in {-1, 0, 1}
    ensures Order(left, right) == -1 <==> Precedes(left, right)
    ensures Order(left, right) == 1 <==> Precedes(right, left)
    ensures Order(left, right) == 0 <==> left == right
    ensures Order(left, right) == -Order(right, left)
  {
    ListOrderIsSection11(left.prerelease, right.prerelease);
    ListOrderIsSection11(right.prerelease, left.prerelease);
  }

  lemma IdentifierTransitive(a: string, b: string, c: string)
    requires IdentifierPrecedes(a, b) && IdentifierPrecedes(b, c)
    ensures IdentifierPrecedes(a, c)
  {
    if !IsNumeric(a) && !IsNumeric(b) && !IsNumeric(c) {
      LessTransitive(a, b, c);
    }
  }

  lemma ListTransitive(a: seq<string>, b: seq<string>, c: seq<string>)
    requires ListPrecedes(a, b) && ListPrecedes(b, c)
    ensures ListPrecedes(a, c)
  {
    if a < b {
      if b < c {
      } else {
        var k :| 0 <= k < |b| && k < |c| && b[..k] == c[..k] && IdentifierPrecedes(b[k], c[k]);
        if |a| <= k {
          assert a == b[..k][..|a|] == c[..k][..|a|] == c[..|a|];
        } else {
          assert a[..k] == b[..k] && a[k] == b[k];
        }
      }
    } else {
      var k :| 0 <= k < |a| && k < |b| && a[..k] == b[..k] && IdentifierPrecedes(a[k], b[k]);
      if b < c {
        assert c[..k] == b[..k] && c[k] == b[k];
      } else {
        var j :| 0 <= j < |b| && j < |c| && b[..j] == c[..j] && IdentifierPrecedes(b[j], c[j]);
        if j < k {
          assert a[..j] == a[..k][..j] == b[..k][..j] == c[..j];
          assert a[j] == a[..k][j] == b[j];
        } else {
          assert a[..k] == b[..k] == b[..j][..k] == c[..k];
          if k < j {
            assert c[k] == b[..j][k] == b[k];
          } else {
            IdentifierTransitive(a[k], b[k], c[k]);
          }
        }
      }
    }
  }

  /** Precedence is transitive, so with `OrderIsSection11` the comparison is a total preorder. */
  lemma PrecedesTransitive(a: Version, b: Version, c: Version)
    requires Precedes(a, b) && Precedes(b, c)
    ensures Precedes(a, c)
  {
    if a.prerelease != [] && b.prerelease != [] && c.prerelease != []
       && ListPrecedes(a.prerelease, b.prerelease) && ListPrecedes(b.prerelease, c.prerelease) {
      ListTransitive(a.prerelease, b.prerelease, c.prerelease);
    }
  }

  /** `compareUpdateVersions` on version strings is a total preorder whose ties are exactly the strings
      that parse alike, that is, the ones that differ in build metadata only. */
  lemma CompareIsTotalPreorder(a: string, b: string, c: string)
    requires Parse(a).Some? && SmallNumbers(Parse(a).value.prerelease)
    requires Parse(b).Some? && SmallNumbers(Parse(b).value.prerelease)
    requires Parse(c).Some? && SmallNumbers(Parse(c).value.prerelease)
    ensures Compare(a, b).value in {-1, 0, 1} && Compare(a, b).value == -Compare(b, a).value
    ensures Compare(a, b).value == 0 <==> Parse(a) == Parse(b)
    ensures Compare(a, b).value <= 0 && Compare(b, c).value <= 0 ==> Compare(a, c).value <= 0
    ensures Compare(a, b).value < 0 && Compare(b, c).value <= 0 ==> Compare(a, c).value < 0
  {
    var (x, y, z) := (Parse(a).value, Parse(b).value, Parse(c).value);
    OrderIsSection11(x, y);
    OrderIsSection11(y, z);
    OrderIsSection11(x, z);
    if Precedes(x, y) && Precedes(y, z) {
      PrecedesTransitive(x, y, z);
    }
  }

  // ---- where numbers stop being exact

  /** At the first difference stand two numbers that `Number` cannot tell apart. */
  ghost predicate Collide(left: seq<string>, right: seq<string>) {
    exists k: nat :: CollideAt(left, right, k)
  }

  predicate CollideAt(left: seq<string>, right: seq<string>, k: nat) {
    && k < |left| && k < |right| && left[..k] == right[..k] && left[k] != right[k]
    && IsNumeric(left[k]) && IsNumeric(right[k]) && Rounded(NumberOf(left[k])) == Rounded(NumberOf(right[k]))
  }

  lemma CollideAfter(left: seq<string>, right: seq<string>, k: nat)
    requires left != [] && right != [] && left[0] == right[0] && CollideAt(left[1..], right[1..], k)
    ensures CollideAt(left, right, k + 1)
  {
    assert left[..k + 1] == [left[0]] + left[1..][..k] && right[..k + 1] == [right[0]] + right[1..][..k];
  }

  lemma CollideBefore(left: seq<string>, right: seq<string>, k: nat)
    requires left != [] && right != [] && left[0] == right[0] && CollideAt(left, right, k)
    ensures k > 0 && CollideAt(left[1..], right[1..], k - 1)
  {
    assert left[1..][..k - 1] == left[..k][1..] && right[1..][..k - 1] == right[..k][1..];
  }

  lemma CollideTail(left: seq<string>, right: seq<string>)
    requires left != [] && right != [] && left[0] == right[0]
    ensures Collide(left, right) <==> Collide(left[1..], right[1..])
  {
    if k: nat :| CollideAt(left, right, k) {
      CollideBefore(left, right, k);
    }
    if k: nat :| CollideAt(left[1..], right[1..], k) {
      CollideAfter(left, right, k);
    }
  }

  /** For any two identifier lists, swapping the arguments negates the answer exactly when the lists do
      not collide. */
  lemma {:induction false} AntisymmetricUnlessCollide(left: seq<string>, right: seq<string>)
    ensures IdentifiersOrder(left, right) == -IdentifiersOrder(right, left) <==> !Collide(left, right)
  {
    if left != [] && right != [] {
      if left[0] == right[0] {
        AntisymmetricUnlessCollide(left[1..], right[1..]);
        CollideTail(left, right);
      } else {
        if Collide(left, right) {
          var k: nat :| CollideAt(left, right, k);
          PrefixHead(left, right, k);
        } else {
          assert !CollideAt(left, right, 0);
        }
        LessTotal(left[0], right[0]);
        if Less(left[0], right[0]) && Less(right[0], left[0]) {
          LessTransitive(left[0], right[0], left[0]);
          LessIrreflexive(left[0]);
        }
      }
    }
  }

  lemma {:induction false} SelfOrder(list: seq<string>)
    ensures IdentifiersOrder(list, list) == 0
  {
    if list != [] {
      SelfOrder(list[1..]);
    }
  }

  /** No version is newer than itself, whatever its numbers. */
  lemma NeverNewerThanItself(version: string)
    ensures Compare(version, version) in {None, Some(0)}
  {
    if Parse(version).Some? {
      SelfOrder(Parse(version).value.prerelease);
    }
  }

  /** 2^53 and 2^53 + 1 collide: each is reported as the newer one. */
  lemma LargeNumbersCollide(left: string, right: string)
    requires IsNumeric(left) && IsNumeric(right)
    requires NumberOf(left) == 0x20_0000_0000_0000 && NumberOf(right) == 0x20_0000_0000_0001
    ensures IdentifiersOrder([left], [right]) == 1 && IdentifiersOrder([right], [left]) == 1
  {
    assert RoundFrom(0x20_0000_0000_0000, 1) == RoundFrom(0x20_0000_0000_0000, 2) == 0x20_0000_0000_0000;
    assert RoundFrom(0x20_0000_0000_0001, 1) == RoundFrom(0x20_0000_0000_0001, 2) == 0x20_0000_0000_0000;
  }

  // ---- build metadata does not matter

  lemma {:induction false} CutAt(head: string, c: char, tail: string)
    requires c !in head
    ensures Cut(head + [c] + tail, c) == (head, Some(tail))
  {
    var text := head + [c] + tail;
    if head == "" {
      assert text[1..] == tail;
    } else {
      assert text[1..] == head[1..] + [c] + tail;
      CutAt(head[1..], c, tail);
      assert [text[0]] + head[1..] == head;
    }
  }

  lemma {:induction false} CutNone(text: string, c: char)
    requires c !in text
    ensures Cut(text, c) == (text, None)
  {
    if text != "" {
      CutNone(text[1..], c);
      assert [text[0]] + text[1..] == text;
    }
  }

  lemma BuildIgnored(text: string, build: string)
    requires '+' !in text && ValidBuild(build)
    ensures Parse(text + "+" + build) == Parse(text)
  {
    CutAt(text, '+', build);
    CutNone(text, '+');
    var whole := text + "+" + build;
    assert whole == text + ['+'] + build;
    assert Cut(whole, '+').0 == Cut(text, '+').0 == text;
    assert Cut(whole, '+').1 == Some(build) && Cut(text, '+').1 == None;
  }

  // ---- the artifact for a target

  datatype Artifact = Artifact(architecture: string, platform: string, sha256: string, sizeBytes: nat, url: string)

  predicate Targets(artifact: Artifact, platform: string, architecture: string) {
    artifact.platform == platform && artifact.architecture == architecture
  }

  ghost predicate DistinctTargets(artifacts: seq<Artifact>) {
    forall i, j :: 0 <= i < j < |artifacts| ==> !Targets(artifacts[j], artifacts[i].platform, artifacts[i].architecture)
  }

  /** The duplicate-target loop of `parseUpdateManifest`. */
  method CheckTargets(artifacts: seq<Artifact>) returns (ok: bool)
    ensures ok <==> DistinctTargets(artifacts)
  {
    var targets: set<(string, string)> := {};
    for i := 0 to |artifacts|
      invariant forall t :: t in targets <==> exists j :: 0 <= j < i && t == (artifacts[j].platform, artifacts[j].architecture)
      invariant forall j, k :: 0 <= j < k < i ==> !Targets(artifacts[k], artifacts[j].platform, artifacts[j].architecture)
    {
      var target := (artifacts[i].platform, artifacts[i].architecture);
      if target in targets {
        var j :| 0 <= j < i && target == (artifacts[j].platform, artifacts[j].architecture);
        assert Targets(artifacts[i], artifacts[j].platform, artifacts[j].architecture);
        return false;
      }
      assert forall j :: 0 <= j < i ==> (artifacts[j].platform, artifacts[j].architecture) in targets;
      targets := targets + {target};
    }
    return true;
  }

  /** `selectUpdateArtifact`: the first artifact for the target. */
  function Select(artifacts: seq<Artifact>, platform: string, architecture: string): (r: Option<Artifact>)
    ensures r.Some? ==> r.value in artifacts && Targets(r.value, platform, architecture)
    ensures r.None? ==> forall a :: a in artifacts ==> !Targets(a, platform, architecture)
  {
    if artifacts == [] then None
    else if Targets(artifacts[0], platform, architecture) then Some(artifacts[0])
    else Select(artifacts[1..], platform, architecture)
  }

  /** In an accepted manifest the choice does not depend on the order of the artifacts. */
  lemma SelectUnique(artifacts: seq<Artifact>, platform: string, architecture: string, artifact: Artifact)
    requires DistinctTargets(artifacts)
    requires artifact in artifacts && Targets(artifact, platform, architecture)
    ensures Select(artifacts, platform, architecture) == Some(artifact)
  {
    var r := Select(artifacts, platform, architecture);
    var i :| 0 <= i < |artifacts| && artifacts[i] == artifact;
    var j :| 0 <= j < |artifacts| && artifacts[j] == r.value;
    if i < j {
      assert !Targets(artifacts[j], artifacts[i].platform, artifacts[i].architecture);
    } else if j < i {
      assert !Targets(artifacts[i], artifacts[j].platform, artifacts[j].architecture);
    }
  }

  /** Versions of the form `d.0.0`. */
  function Plain(digit: char): string {
    [digit] + ".0.0"
  }

  lemma ParsePlain(digit: char)
    requires IsDigit(digit)
    ensures Parse(Plain(digit)) == Some(Version(digit as int - '0' as int, 0, 0, []))
  {
    var text := Plain(digit);
    CutNone(text, '+');
    CutNone(text, '-');
    assert text == [digit] + ['.'] + "0.0" && "0.0" == "0" + ['.'] + "0";
    SplitAt([digit], '.', "0.0");
    SplitAt("0", '.', "0");
    SplitWhole("0", '.');
    OneDigit(digit);
    OneDigit('0');
  }

  lemma OneDigit(digit: char)
    requires IsDigit(digit)
    ensures ValidNumber([digit]) && NumberOf([digit]) == digit as int - '0' as int
  {
    assert [digit][..0] == "" && NumberOf("") == 0;
  }

  lemma PlainOrder(left: char, right: char)
    requires IsDigit(left) && IsDigit(right) && left > right
    ensures Compare(Plain(left), Plain(right)) == Some(1)
  {
    ParsePlain(left);
    ParsePlain(right);
  }
}
