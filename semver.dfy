/**
 * The `semver` value type of src/semver.cpp: three unsigned 32-bit
 * components, a lexicographic order, the `can_use` / `can_support`
 * compatibility rule, `major.minor.patch` formatting and the
 * `istringstream`-based parser.
 */
module Semver {
  import opened Wrappers
  import opened Decimal
  import opened GTree

  newtype u32 = x: int | 0 <= x < 0x1_0000_0000

  const Int32Max: int := 0x7fff_ffff
  const Int32Min: int := -0x8000_0000

  datatype SemVer = SemVer(major: u32, minor: u32, patch: u32)

  // ---------------------------------------------------------------- compatibility

  /**
   * `consumer.can_use(api)`: can a program written against `consumer`
   * run against an implementation that provides `api`?
   */
  predicate CanUse(consumer: SemVer, api: SemVer) {
    if consumer.major != api.major then false
    // major version 0 is unstable: only an exact match will do
    else if consumer.major == 0 then consumer.minor == api.minor && consumer.patch == api.patch
    else if consumer.minor != api.minor then consumer.minor < api.minor
    else consumer.patch <= api.patch
  }

  /** `api.can_support(application)` is `application.can_use(api)`. */
  predicate CanSupport(api: SemVer, application: SemVer) {
    CanUse(application, api)
  }

  // ---------------------------------------------------------------- ordering

  datatype Ordering = Less | Equal | Greater

  function Cmp(a: int, b: int): Ordering {
    if a < b then Less else if a == b then Equal else Greater
  }

  /** `operator <=>`: major first, then minor, then patch. */
  function Compare(a: SemVer, b: SemVer): Ordering {
    if a.major != b.major then Cmp(a.major as int, b.major as int)
    else if a.minor != b.minor then Cmp(a.minor as int, b.minor as int)
    else Cmp(a.patch as int, b.patch as int)
  }

  /** `operator ==` is defined as `(a <=> b) == 0`. */
  predicate Same(a: SemVer, b: SemVer) {
    Compare(a, b) == Equal
  }

  /** An independent reading of the order: the components as digits of a base-2^32 number. */
  function Key(v: SemVer): nat {
    (v.major as nat) * 0x1_0000_0000 * 0x1_0000_0000 + (v.minor as nat) * 0x1_0000_0000 + v.patch as nat
  }

  // ---------------------------------------------------------------- tree codec

  /** `semver::gtree_encode`: the 3-tuple (major, minor, patch) of unsigned numbers. */
  function ToTree(v: SemVer): Tree {
    Tuple([UInt(v.major as nat), UInt(v.minor as nat), UInt(v.patch as nat)])
  }

  /** A tree child that decodes as a `std::uint32_t`. */
  predicate IsU32(t: Tree) {
    t.UInt? && t.n < 0x1_0000_0000
  }

  /** `semver::gtree_decode`: a 3-tuple of unsigned numbers that fit in 32 bits. */
  function FromTree(t: Tree): (r: Result<SemVer, string>)
    ensures r.Ok? <==> t.Tuple? && |t.items| == 3 && IsU32(t.items[0]) && IsU32(t.items[1]) && IsU32(t.items[2])
  {
    if t.Tuple? && |t.items| == 3 && IsU32(t.items[0]) && IsU32(t.items[1]) && IsU32(t.items[2])
    then Ok(SemVer(t.items[0].n as u32, t.items[1].n as u32, t.items[2].n as u32))
    else Err("failed to decode semver")
  }

  // ---------------------------------------------------------------- formatting

  /** `os << v`: `major '.' minor '.' patch` in decimal. */
  function Format(v: SemVer): string {
    Dec(v.major as nat) + "." + Dec(v.minor as nat) + "." + Dec(v.patch as nat)
  }

  // ---------------------------------------------------------------- parsing

  /** The part of an `istringstream` the parser relies on: the text, the read position, and `good()`. */
  datatype Stream = Stream(text: string, pos: nat, good: bool)

  predicate ValidStream(st: Stream) {
    st.pos <= |st.text|
  }

  function Clamp(n: int): int {
    if n > Int32Max then Int32Max else if n < Int32Min then Int32Min else n
  }

  /**
   * `ss >> n` for an `int32_t n` holding `cur`. A stream that is not good
   * leaves `n` alone; leading white space is skipped; end of input leaves
   * `n` alone and fails the stream; a sign and no digits stores 0 and fails;
   * an out-of-range number stores the nearest bound and fails; digits that
   * run to the end of the text set end-of-file, so the stream is no longer
   * good either.
   */
  function ExtractInt(st: Stream, cur: int): (r: (Stream, int))
    requires ValidStream(st)
    ensures ValidStream(r.0) && r.0.text == st.text
    ensures Int32Min <= cur <= Int32Max ==> Int32Min <= r.1 <= Int32Max
  {
    if !st.good then (st, cur)
    else
      var p := SkipSpace(st.text, st.pos);
      if p == |st.text| then (Stream(st.text, p, false), cur)
      else ReadNumber(st.text, p)
  }

  /** The number conversion proper, at the first non-blank character `s[p]`. */
  function ReadNumber(s: string, p: nat): (r: (Stream, int))
    requires p < |s|
    ensures ValidStream(r.0) && r.0.text == s
    ensures Int32Min <= r.1 <= Int32Max
  {
    var q := if s[p] == '-' || s[p] == '+' then p + 1 else p;
    var e := DigitsEnd(s, q);
    if e == q then (Stream(s, q, false), 0)
    else
      var magnitude: int := Value(s[q..e]);
      var n: int := if s[p] == '-' then -magnitude else magnitude;
      (Stream(s, e, e < |s| && Int32Min <= n <= Int32Max), Clamp(n))
  }

  /** `ss >> c` for a `char c` holding `cur`: skips white space and takes one character. */
  function ExtractChar(st: Stream, cur: char): (r: (Stream, char))
    requires ValidStream(st)
    ensures ValidStream(r.0) && r.0.text == st.text
  {
    if !st.good then (st, cur)
    else
      var p := SkipSpace(st.text, st.pos);
      if p == |st.text| then (Stream(st.text, p, false), cur)
      else (Stream(st.text, p + 1, true), st.text[p])
  }

  /** The three numbers `parse` reads, each starting at -1, before its sign check. */
  function Extracted(text: string): (int, int, int) {
    var r1 := ExtractInt(Stream(text, 0, true), -1);
    var r2 := ExtractChar(r1.0, 0 as char);
    var r3 := ExtractInt(r2.0, -1);
    var r4 := ExtractChar(r3.0, 0 as char);
    var r5 := ExtractInt(r4.0, -1);
    (r1.1, r3.1, r5.1)
  }

  /** `semver::parse`: fails when any of the three extracted numbers is negative. */
  function Parse(text: string): (r: Result<SemVer, string>)
    ensures r.Ok? ==> r.value.major as int <= Int32Max && r.value.minor as int <= Int32Max
                      && r.value.patch as int <= Int32Max
  {
    var numbers := Extracted(text);
    var major, minor, patch := numbers.0, numbers.1, numbers.2;
    if major < 0 || minor < 0 || patch < 0 then Err("invalid version numbers")
    else Ok(SemVer(major as u32, minor as u32, patch as u32))
  }

  // ================================================================ properties

  /** The order is the numeric order of `Key`, so it is lexicographic on (major, minor, patch). */
  lemma CompareIsKeyOrder(a: SemVer, b: SemVer)
    ensures Compare(a, b) == Cmp(Key(a), Key(b))
  {
    var B: nat := 0x1_0000_0000;
    var low := (v: SemVer) => (v.minor as nat) * B + v.patch as nat;
    assert Key(a) == (a.major as nat) * B * B + low(a);
    assert Key(b) == (b.major as nat) * B * B + low(b);
    assert low(a) < B * B && low(b) < B * B by {
      assert (a.minor as nat) * B <= (B - 1) * B;
      assert (b.minor as nat) * B <= (B - 1) * B;
    }
    if a.major < b.major {
      assert (a.major as nat + 1) * B * B <= (b.major as nat) * B * B;
    } else if a.major > b.major {
      assert (b.major as nat + 1) * B * B <= (a.major as nat) * B * B;
    } else if a.minor < b.minor {
      assert (a.minor as nat + 1) * B <= (b.minor as nat) * B;
    } else if a.minor > b.minor {
      assert (b.minor as nat + 1) * B <= (a.minor as nat) * B;
    }
  }

  /** `operator ==` holds exactly when all three components are equal. */
  lemma SameIffEqual(a: SemVer, b: SemVer)
    ensures Same(a, b) <==> a == b
  {
  }

  function Flip(o: Ordering): Ordering {
    match o
    case Less => Greater
    case Equal => Equal
    case Greater => Less
  }

  /** `<=>` is a strong total order: antisymmetric and transitive. */
  lemma CompareIsTotalOrder(a: SemVer, b: SemVer, c: SemVer)
    ensures Compare(b, a) == Flip(Compare(a, b))
    ensures Compare(a, b) != Greater && Compare(b, c) != Greater ==> Compare(a, c) != Greater
    ensures Compare(a, b) == Less && Compare(b, c) == Less ==> Compare(a, c) == Less
  {
    CompareIsKeyOrder(a, b);
    CompareIsKeyOrder(b, a);
    CompareIsKeyOrder(b, c);
    CompareIsKeyOrder(a, c);
  }

  /**
   * `can_use` against the order: the majors must agree, and then at major 0
   * the versions must be equal, and above it the consumer must not be
   * newer than the api.
   */
  lemma CanUseByOrder(consumer: SemVer, api: SemVer)
    ensures CanUse(consumer, api) <==>
              consumer.major == api.major &&
              (if consumer.major == 0 then consumer == api else Key(consumer) <= Key(api))
  {
    CompareIsKeyOrder(consumer, api);
  }

  /** Every version can use itself, and `can_support` mirrors `can_use`. */
  lemma CanUseReflexiveAndMirrored(v: SemVer, a: SemVer, b: SemVer)
    ensures CanUse(v, v)
    ensures CanSupport(a, b) == CanUse(b, a)
  {
  }

  /** Compatibility chains: if a can use b and b can use c, a can use c. */
  lemma CanUseTransitive(a: SemVer, b: SemVer, c: SemVer)
    requires CanUse(a, b) && CanUse(b, c)
    ensures CanUse(a, c)
  {
    CanUseByOrder(a, b);
    CanUseByOrder(b, c);
    CanUseByOrder(a, c);
  }

  // ---------------------------------------------------------------- parsing

  /** The text of a signed number as `<<` would print it. */
  function SignedDec(x: int): string {
    if x < 0 then "-" + Dec(-x) else Dec(x)
  }

  /** A character that `>> char` will take as the separator between two numbers. */
  predicate Separator(c: char) {
    !IsSpace(c) && !IsDigit(c) && c != '-' && c != '+'
  }

  /**
   * One `>> int32_t` over white space and a signed decimal that is followed
   * by a non-digit (or by the end): the number is read, clamped to the
   * 32-bit range, and the stream stays good only if more text follows and
   * nothing was clamped.
   */
  lemma ExtractSigned(s: string, i: nat, j: nat, x: int, cur: int)
    requires i <= j && j + |SignedDec(x)| <= |s|
    requires forall k :: i <= k < j ==> IsSpace(s[k])
    requires s[j..j + |SignedDec(x)|] == SignedDec(x)
    requires j + |SignedDec(x)| < |s| ==> !IsDigit(s[j + |SignedDec(x)|])
    ensures ExtractInt(Stream(s, i, true), cur) ==
              (Stream(s, j + |SignedDec(x)|,
                      j + |SignedDec(x)| < |s| && Int32Min <= x <= Int32Max),
               Clamp(x))
  {
    assert SkipSpace(s, i) == j by {
      assert s[j] == SignedDec(x)[0];
      SkipSpaceOver(s, i, j);
    }
    assert ExtractInt(Stream(s, i, true), cur) == ReadNumber(s, j) by {
      ExtractIntAt(Stream(s, i, true), cur, j);
    }
    ReadSigned(s, j, x);
  }

  /** A good stream whose white space ends before the end of the text reads the number there. */
  lemma ExtractIntAt(st: Stream, cur: int, p: nat)
    requires ValidStream(st) && st.good && p < |st.text| && SkipSpace(st.text, st.pos) == p
    ensures ExtractInt(st, cur) == ReadNumber(st.text, p)
  {
  }

  /** The number conversion at a signed decimal followed by a non-digit (or by the end). */
  lemma ReadSigned(s: string, j: nat, x: int)
    requires j + |SignedDec(x)| <= |s| && s[j..j + |SignedDec(x)|] == SignedDec(x)
    requires j + |SignedDec(x)| < |s| ==> !IsDigit(s[j + |SignedDec(x)|])
    ensures ReadNumber(s, j) ==
              (Stream(s, j + |SignedDec(x)|, j + |SignedDec(x)| < |s| && Int32Min <= x <= Int32Max),
               Clamp(x))
  {
    var e := j + |SignedDec(x)|;
    if x < 0 {
      ReadNegative(s, j, x, e);
    } else {
      ReadNonNegative(s, j, x, e);
    }
  }

  lemma ReadNonNegative(s: string, j: nat, x: int, e: nat)
    requires x >= 0
    requires e == j + |SignedDec(x)| && e <= |s| && s[j..e] == SignedDec(x)
    requires e < |s| ==> !IsDigit(s[e])
    ensures ReadNumber(s, j) == (Stream(s, e, e < |s| && Int32Min <= x <= Int32Max), Clamp(x))
  {
    assert IsDigit(s[j]) && e == j + |Dec(x)| && s[j..e] == Dec(x) by {
      assert SignedDec(x) == Dec(x);
      assert s[j] == Dec(x)[0];
    }
    DigitsOf(s, j, x, e);
    ReadDigits(s, j, j, e, x);
  }

  lemma ReadNegative(s: string, j: nat, x: int, e: nat)
    requires x < 0
    requires e == j + |SignedDec(x)| && e <= |s| && s[j..e] == SignedDec(x)
    requires e < |s| ==> !IsDigit(s[e])
    ensures ReadNumber(s, j) == (Stream(s, e, e < |s| && Int32Min <= x <= Int32Max), Clamp(x))
  {
    assert s[j] == '-' && e == j + 1 + |Dec(-x)| && s[j + 1..e] == Dec(-x) by {
      SliceAfterFirst(s, j, SignedDec(x));
      assert SignedDec(x)[1..] == Dec(-x);
    }
    DigitsOf(s, j + 1, -x, e);
    ReadDigits(s, j, j + 1, e, -x);
  }

  /** `ReadNumber` at `p` whose digits, after an optional sign, run from `q` to `e` and spell `v`. */
  lemma ReadDigits(s: string, p: nat, q: nat, e: nat, v: nat)
    requires p < |s| && q == (if s[p] == '-' || s[p] == '+' then p + 1 else p)
    requires q < e <= |s| && DigitsEnd(s, q) == e && Value(s[q..e]) == v
    ensures var n: int := if s[p] == '-' then -(v as int) else v;
            ReadNumber(s, p) == (Stream(s, e, e < |s| && Int32Min <= n <= Int32Max), Clamp(n))
  {
  }

  lemma SliceAfterFirst(s: string, j: nat, t: string)
    requires |t| >= 1 && j + |t| <= |s| && s[j..j + |t|] == t
    ensures s[j] == t[0] && s[j + 1..j + |t|] == t[1..]
  {
    assert s[j] == s[j..j + |t|][0];
  }

  /** One `>> char` at a separator that is not white space. */
  lemma ExtractSeparator(s: string, i: nat, cur: char)
    requires i < |s| && !IsSpace(s[i])
    ensures ExtractChar(Stream(s, i, true), cur) == (Stream(s, i + 1, true), s[i])
  {
  }

  /**
   * What `parse` makes of three signed decimals joined by two separators and
   * followed by any text that does not start with a digit: it succeeds exactly
   * when the first two are in 0..2^31-1 and the third is not negative, and
   * then yields them, the third clamped to 2^31-1. So any separator works,
   * trailing text is ignored, a negative component fails, a too-large major
   * or minor fails, and a too-large patch is silently clamped.
   */
  lemma ParseSigned(x: int, y: int, z: int, c1: char, c2: char, post: string)
    requires Separator(c1) && Separator(c2)
    requires post == [] || !IsDigit(post[0])
    ensures 0 <= x <= Int32Max && 0 <= y <= Int32Max && 0 <= z ==>
              Parse(SignedDec(x) + [c1] + SignedDec(y) + [c2] + SignedDec(z) + post)
                == Ok(SemVer(x as u32, y as u32, Clamp(z) as u32))
    ensures !(0 <= x <= Int32Max && 0 <= y <= Int32Max && 0 <= z) ==>
              Parse(SignedDec(x) + [c1] + SignedDec(y) + [c2] + SignedDec(z) + post).Err?
  {
    var s := SignedDec(x) + [c1] + SignedDec(y) + [c2] + SignedDec(z) + post;
    var major, minor, patch := ExtractedSigned(x, y, z, c1, c2, post);
    assert Extracted(s) == (major, minor, patch);
  }

  /** The three numbers `parse` extracts from such a text, before its sign check. */
  lemma ExtractedSigned(x: int, y: int, z: int, c1: char, c2: char, post: string)
      returns (major: int, minor: int, patch: int)
    requires Separator(c1) && Separator(c2)
    requires post == [] || !IsDigit(post[0])
    ensures Extracted(SignedDec(x) + [c1] + SignedDec(y) + [c2] + SignedDec(z) + post) == (major, minor, patch)
    ensures major == Clamp(x)
    ensures minor == if Int32Min <= x <= Int32Max then Clamp(y) else -1
    ensures patch == if Int32Min <= x <= Int32Max && Int32Min <= y <= Int32Max then Clamp(z) else -1
  {
    major := Clamp(x);
    minor := if Int32Min <= x <= Int32Max then Clamp(y) else -1;
    patch := if Int32Min <= x <= Int32Max && Int32Min <= y <= Int32Max then Clamp(z) else -1;
    var a, b, c := SignedDec(x), SignedDec(y), SignedDec(z);
    var s := a + [c1] + b + [c2] + c + post;
    Regroup(a, c1, b, c2, c, post);
    var s1 := Stream(s, |a|, Int32Min <= x <= Int32Max);
    NumberAtStart(s, x, [c1] + b + [c2] + c + post, s1);
    if !s1.good {
      ExtractedSteps(s, s1, major, s1, minor, patch);
    } else {
      ExtractedAfterMajor(s, a, c1, y, b, c2, z, c, post);
    }
  }

  /** The rest of `ExtractedSigned` once the major was read and the stream is still good. */
  lemma ExtractedAfterMajor(s: string, a: string, c1: char, y: int, b: string, c2: char, z: int, c: string, post: string)
    requires b == SignedDec(y) && c == SignedDec(z)
    requires s == a + [c1] + b + [c2] + c + post && s == a + [c1] + b + ([c2] + c + post)
    requires Separator(c1) && Separator(c2)
    requires post == [] || !IsDigit(post[0])
    ensures var r1 := ExtractInt(Stream(s, 0, true), -1);
            r1.0 == Stream(s, |a|, true) ==>
              Extracted(s) == (r1.1, Clamp(y), if Int32Min <= y <= Int32Max then Clamp(z) else -1)
  {
    var r1 := ExtractInt(Stream(s, 0, true), -1);
    if r1.0 == Stream(s, |a|, true) {
      var s1 := r1.0;
      var s3 := Stream(s, |a| + 1 + |b|, Int32Min <= y <= Int32Max);
      var minor := Clamp(y);
      assert ExtractInt(ExtractChar(s1, 0 as char).0, -1) == (s3, minor) by {
        NumberAfterSeparator(s, s1, a, c1, y, [c2] + c + post, s3);
      }
      if !s3.good {
        ExtractedSteps(s, s1, r1.1, s3, minor, -1);
      } else {
        assert ExtractInt(ExtractChar(s3, 0 as char).0, -1).1 == Clamp(z) by {
          var s5 := Stream(s, |a| + 1 + |b| + 1 + |c|, post != [] && Int32Min <= z <= Int32Max);
          NumberAfterSeparator(s, s3, a + [c1] + b, c2, z, post, s5);
        }
        ExtractedSteps(s, s1, r1.1, s3, minor, Clamp(z));
      }
    }
  }

  lemma NumberAtStart(s: string, x: int, post: string, st': Stream)
    requires s == SignedDec(x) + post
    requires post == [] || !IsDigit(post[0])
    requires st' == Stream(s, |SignedDec(x)|, post != [] && Int32Min <= x <= Int32Max)
    ensures ExtractInt(Stream(s, 0, true), -1) == (st', Clamp(x))
  {
    FrontOf(SignedDec(x), post);
    ExtractSigned(s, 0, 0, x, -1);
  }

  /**
   * The separator and the number after it; `st` is the stream before the
   * separator and `st'` the one after the number.
   */
  lemma NumberAfterSeparator(s: string, st: Stream, pre: string, c: char, x: int, post: string, st': Stream)
    requires s == pre + [c] + SignedDec(x) + post
    requires st == Stream(s, |pre|, true)
    requires st' == Stream(s, |pre| + 1 + |SignedDec(x)|, post != [] && Int32Min <= x <= Int32Max)
    requires Separator(c)
    requires post == [] || !IsDigit(post[0])
    ensures ExtractInt(ExtractChar(st, 0 as char).0, -1) == (st', Clamp(x))
  {
    var t := SignedDec(x);
    var j := |pre| + 1;
    AfterSeparator(pre, c, t, post);
    ExtractSeparator(s, |pre|, 0 as char);
    ExtractSigned(s, j, j, x, -1);
  }

  lemma FrontOf(t: string, post: string)
    ensures (t + post)[0..|t|] == t
  {
  }

  lemma AfterSeparator(pre: string, c: char, t: string, post: string)
    ensures var s := pre + [c] + t + post;
            var j := |pre| + 1;
            |s| == j + |t| + |post| && s[|pre|] == c && s[j..j + |t|] == t &&
            (j + |t| < |s| ==> s[j + |t|] == post[0])
  {
    var s := pre + [c] + t + post;
    var j := |pre| + 1;
    assert s[j..j + |t|] == t;
  }

  lemma Regroup(a: string, c1: char, b: string, c2: char, c: string, post: string)
    ensures a + [c1] + b + [c2] + c + post == a + ([c1] + b + [c2] + c + post)
    ensures a + [c1] + b + [c2] + c + post == a + [c1] + b + ([c2] + c + post)
  {
  }

  /** `Extracted` is the chain of its five extractions. */
  lemma ExtractedSteps(s: string, s1: Stream, major: int, s3: Stream, minor: int, patch: int)
    requires ValidStream(s1) && ValidStream(s3)
    requires ExtractInt(Stream(s, 0, true), -1) == (s1, major)
    requires ExtractInt(ExtractChar(s1, 0 as char).0, -1) == (s3, minor)
    requires ExtractInt(ExtractChar(s3, 0 as char).0, -1).1 == patch
    ensures Extracted(s) == (major, minor, patch)
  {
  }

  /** Formatting then parsing gives the version back exactly when every component is at most 2^31-1. */
  lemma ParseFormat(v: SemVer)
    ensures Parse(Format(v)) == Ok(v) <==>
              v.major as int <= Int32Max && v.minor as int <= Int32Max && v.patch as int <= Int32Max
  {
    ParseSigned(v.major as int, v.minor as int, v.patch as int, '.', '.', []);
    assert Format(v) == SignedDec(v.major as int) + ['.'] + SignedDec(v.minor as int) + ['.']
                        + SignedDec(v.patch as int) + [];
  }

  /** Two components and nothing after them is not a version. */
  lemma ParseMissingPatch(x: nat, y: nat, c1: char)
    requires Separator(c1)
    ensures Parse(Dec(x) + [c1] + Dec(y)).Err?
  {
    var a, b := Dec(x), Dec(y);
    var s := a + [c1] + b;
    var s1 := Stream(s, |a|, x <= Int32Max);
    assert ExtractInt(Stream(s, 0, true), -1) == (s1, Clamp(x)) by {
      assert s == SignedDec(x) + ([c1] + b);
      NumberAtStart(s, x, [c1] + b, s1);
    }
    if s1.good {
      var s3 := Stream(s, |s|, false);
      assert ExtractInt(ExtractChar(s1, 0 as char).0, -1) == (s3, Clamp(y)) by {
        assert s == a + [c1] + SignedDec(y) + [];
        NumberAfterSeparator(s, s1, a, c1, y, [], s3);
      }
      assert Extracted(s).2 == -1 by {
        ExtractedSteps(s, s1, Clamp(x), s3, Clamp(y), -1);
      }
    } else {
      assert Extracted(s).1 == -1 by {
        ExtractedSteps(s, s1, Clamp(x), s1, -1, -1);
      }
    }
  }

  /** A single number, with or without a separator after it, is not a version: the minor stays -1. */
  lemma ParseMissingMinor(x: nat, c1: char)
    requires Separator(c1)
    ensures Parse(Dec(x)).Err?
    ensures Parse(Dec(x) + [c1]).Err?
  {
    var a := Dec(x);
    var s0 := Stream(a, |a|, false);
    assert ExtractInt(Stream(a, 0, true), -1) == (s0, Clamp(x)) by {
      assert a == SignedDec(x) + [];
      NumberAtStart(a, x, [], s0);
    }
    assert Extracted(a).1 == -1 by {
      ExtractedSteps(a, s0, Clamp(x), s0, -1, -1);
    }
    var s := a + [c1];
    var s1 := Stream(s, |a|, x <= Int32Max);
    assert ExtractInt(Stream(s, 0, true), -1) == (s1, Clamp(x)) by {
      assert s == SignedDec(x) + [c1];
      NumberAtStart(s, x, [c1], s1);
    }
    if s1.good {
      ExtractSeparator(s, |a|, 0 as char);
      var s3 := Stream(s, |s|, false);
      assert Extracted(s).1 == -1 by {
        ExtractedSteps(s, s1, Clamp(x), s3, -1, -1);
      }
    } else {
      assert Extracted(s).1 == -1 by {
        ExtractedSteps(s, s1, Clamp(x), s1, -1, -1);
      }
    }
  }

  /** Two numbers and a separator with nothing after it are not a version: the patch stays -1. */
  lemma ParseTrailingSeparator(x: nat, y: nat, c1: char, c2: char)
    requires Separator(c1) && Separator(c2)
    ensures Parse(Dec(x) + [c1] + Dec(y) + [c2]).Err?
  {
    TrailingSeparatorLeavesPatch(x, y, c1, c2);
  }

  /** The extraction behind `ParseTrailingSeparator`: the minor or the patch is still -1. */
  lemma TrailingSeparatorLeavesPatch(x: nat, y: nat, c1: char, c2: char)
    requires Separator(c1) && Separator(c2)
    ensures var e := Extracted(Dec(x) + [c1] + Dec(y) + [c2]); e.1 == -1 || e.2 == -1
  {
    var a, b := Dec(x), Dec(y);
    var s := a + [c1] + b + [c2];
    var s1 := Stream(s, |a|, x <= Int32Max);
    assert ExtractInt(Stream(s, 0, true), -1) == (s1, Clamp(x)) by {
      assert s == SignedDec(x) + ([c1] + b + [c2]);
      NumberAtStart(s, x, [c1] + b + [c2], s1);
    }
    if s1.good {
      assert s == a + [c1] + SignedDec(y) + [c2];
      TrailingAfterMajor(s, a, c1, y, c2, Clamp(x));
    } else {
      assert Extracted(s).1 == -1 by {
        ExtractedSteps(s, s1, Clamp(x), s1, -1, -1);
      }
    }
  }

  /** The rest of `TrailingSeparatorLeavesPatch` once the major was read and the stream is still good. */
  lemma TrailingAfterMajor(s: string, a: string, c1: char, y: int, c2: char, major: int)
    requires s == a + [c1] + SignedDec(y) + [c2]
    requires Separator(c1) && Separator(c2)
    requires ExtractInt(Stream(s, 0, true), -1) == (Stream(s, |a|, true), major)
    ensures Extracted(s).2 == -1
  {
    var s1 := Stream(s, |a|, true);
    var j := |a| + 1 + |SignedDec(y)|;
    var s3 := Stream(s, j, Int32Min <= y <= Int32Max);
    NumberAfterSeparator(s, s1, a, c1, y, [c2], s3);
    if s3.good {
      assert s[j] == c2;
      ExtractSeparator(s, j, 0 as char);
    }
    ExtractedSteps(s, s1, major, s3, Clamp(y), -1);
  }

  /** `"1.2.3"` parses to (1, 2, 3) and (1, 2, 3) prints as `"1.2.3"`. */
  lemma ParseBasicVersion()
    ensures Parse("1.2.3") == Ok(SemVer(1, 2, 3))
    ensures Format(SemVer(1, 2, 3)) == "1.2.3"
  {
    assert "1.2.3" == SignedDec(1) + ['.'] + SignedDec(2) + ['.'] + SignedDec(3) + [] by {
      assert SignedDec(1) == "1" && SignedDec(2) == "2" && SignedDec(3) == "3";
    }
    ParseSigned(1, 2, 3, '.', '.', []);
  }

  /** A negative major, minor or patch is an error. */
  lemma ParseNegativeMajorIsError()
    ensures Parse("-1.2.3").Err?
  {
    assert "-1.2.3" == SignedDec(-1) + ['.'] + SignedDec(2) + ['.'] + SignedDec(3) + [] by {
      assert SignedDec(-1) == "-1" && SignedDec(2) == "2" && SignedDec(3) == "3";
    }
    ParseSigned(-1, 2, 3, '.', '.', []);
  }

  lemma ParseNegativeMinorIsError()
    ensures Parse("1.-2.3").Err?
  {
    assert "1.-2.3" == SignedDec(1) + ['.'] + SignedDec(-2) + ['.'] + SignedDec(3) + [] by {
      assert SignedDec(1) == "1" && SignedDec(-2) == "-2" && SignedDec(3) == "3";
    }
    ParseSigned(1, -2, 3, '.', '.', []);
  }

  lemma ParseNegativePatchIsError()
    ensures Parse("1.2.-3").Err?
  {
    assert "1.2.-3" == SignedDec(1) + ['.'] + SignedDec(2) + ['.'] + SignedDec(-3) + [] by {
      assert SignedDec(1) == "1" && SignedDec(2) == "2" && SignedDec(-3) == "-3";
    }
    ParseSigned(1, 2, -3, '.', '.', []);
  }

  /** An incomplete text, an empty one and a word are errors. */
  lemma ParseShortIsError()
    ensures Parse("1.2").Err?
  {
    assert Dec(1) == ['1'] && Dec(2) == ['2'];
    assert Dec(1) + ['.'] + Dec(2) == ['1', '.', '2'];
    ParseMissingPatch(1, 2, '.');
  }

  lemma ParseEmptyIsError()
    ensures Parse("").Err?
  {
    assert Extracted("").0 == -1;
  }

  lemma ParseWordIsError()
    ensures Parse("cookie-monster").Err?
  {
    assert Extracted("cookie-monster").1 == -1;
  }

  /** Three numbers joined by dots, as the general parse lemma expects them. */
  lemma DottedIsSigned(major: nat, minor: nat, patch: nat)
    ensures Dec(major) + "." + Dec(minor) + "." + Dec(patch) ==
            SignedDec(major) + ['.'] + SignedDec(minor) + ['.'] + SignedDec(patch) + []
  {
  }

  /**
   * A major beyond 2^31-1 is an error: the stream fails at the major and the
   * minor is never read. (So `"99999999999.1.1"` is rejected.)
   */
  lemma ParseHugeMajorIsError(major: nat, minor: nat, patch: nat)
    requires major > Int32Max
    ensures Parse(Dec(major) + "." + Dec(minor) + "." + Dec(patch)).Err?
  {
    DottedIsSigned(major, minor, patch);
    ParseSigned(major, minor, patch, '.', '.', []);
  }

  /** The same holds of a minor beyond 2^31-1. */
  lemma ParseHugeMinorIsError(major: nat, minor: nat, patch: nat)
    requires minor > Int32Max
    ensures Parse(Dec(major) + "." + Dec(minor) + "." + Dec(patch)).Err?
  {
    DottedIsSigned(major, minor, patch);
    ParseSigned(major, minor, patch, '.', '.', []);
  }

  /**
   * A patch beyond 2^31-1 is not rejected: it is clamped to 2^31-1, because
   * the stream fails only at the last read and the sign check passes.
   */
  lemma ParseClampsHugePatch(major: nat, minor: nat, patch: nat)
    requires major <= Int32Max && minor <= Int32Max && patch > Int32Max
    ensures Parse(Dec(major) + "." + Dec(minor) + "." + Dec(patch)) ==
              Ok(SemVer(major as u32, minor as u32, 0x7fff_ffff))
  {
    DottedIsSigned(major, minor, patch);
    ParseSigned(major, minor, patch, '.', '.', []);
  }

  // ---------------------------------------------------------------- tree codec

  /**
   * Decoding the encoding of a version gives it back, and a tree that
   * decodes is the encoding of what it decodes to.
   */
  lemma TreeRoundTrip(v: SemVer, t: Tree)
    ensures FromTree(ToTree(v)) == Ok(v)
    ensures FromTree(t).Ok? ==> ToTree(FromTree(t).value) == t
  {
    if FromTree(t).Ok? {
      assert ToTree(FromTree(t).value).items == t.items;
    }
  }
}
