/** Deterministic choice of a card gradient from an entity key
    (Frontend/src/styles/gradientPicker.ts). */
module GradientPicker {
  import opened Common
  import opened GradientPresets

  /** A UTF-16 code unit, the value `charCodeAt` returns. */
  type CodeUnit = c: int | 0 <= c < 0x1_0000

  const Two31: int := 0x8000_0000
  const Two32: int := 0x1_0000_0000

  /** ECMAScript ToInt32 on an integral number: the value congruent to `x`
      modulo 2^32 that lies in [-2^31, 2^31). */
  function ToInt32(x: int): (r: int)
    ensures -Two31 <= r < Two31
    ensures (x - r) % Two32 == 0
  {
    (x + Two31) % Two32 - Two31
  }

  /** ToInt32 depends only on the residue of its argument modulo 2^32. */
  lemma ToInt32Periodic(x: int, k: int)
    ensures ToInt32(x + k * Two32) == ToInt32(x)
  {
    var a := x + Two31;
    assert (a + k * Two32) % Two32 == a % Two32 by {
      var q := a / Two32;
      assert a + k * Two32 == (q + k) * Two32 + a % Two32;
    }
  }

  /** A value already within 2^32·k of the signed range reduces by exactly that much. */
  lemma ToInt32Exact(x: int, k: int)
    requires -Two31 <= x - k * Two32 < Two31
    ensures ToInt32(x) == x - k * Two32
  {
    ToInt32Periodic(x - k * Two32, k);
  }

  /** `h << 5`: the left operand goes through ToInt32, the shifted 32-bit
      pattern is read back as a signed integer. */
  function ShiftLeft5(h: int): int
  {
    ToInt32(ToInt32(h) * 32)
  }

  /** Only the shifted term wraps: `h << 5` is 32·h reduced to 32 bits. */
  lemma ShiftLeft5Wraps(h: int)
    ensures ShiftLeft5(h) == ToInt32(h * 32)
    ensures -Two31 <= ShiftLeft5(h) < Two31
  {
    var k := (h - ToInt32(h)) / Two32;
    assert ToInt32(h) * 32 == h * 32 + (-32 * k) * Two32;
    ToInt32Periodic(h * 32, -32 * k);
  }

  const Seed: int := 5381

  /** One iteration of `hash = (hash << 5) + hash + code`; the sum itself is
      ordinary (unwrapped) addition. */
  function Step(h: int, c: CodeUnit): int
  {
    ShiftLeft5(h) + h + c
  }

  /** One iteration from a 32-bit accumulator whose shift wraps `k` times. */
  lemma StepExact(h: int, c: CodeUnit, k: int)
    requires -Two31 <= h < Two31
    requires -Two31 <= h * 32 - k * Two32 < Two31
    ensures Step(h, c) == 33 * h + c - k * Two32
  {
    ToInt32Exact(h, 0);
    ToInt32Exact(h * 32, k);
  }

  /** The accumulator once the loop has consumed every code unit of `key`,
      from left to right. */
  function Hash(key: seq<CodeUnit>): int
  {
    if key == [] then Seed else Step(Hash(key[..|key| - 1]), key[|key| - 1])
  }

  function Abs(x: int): nat
  {
    if x < 0 then -x else x
  }

  /** `Math.abs(hash) % modulo`, the bucket the key falls in. */
  function Index(key: seq<CodeUnit>, modulo: int): (i: int)
    requires modulo > 0
    ensures 0 <= i < modulo
  {
    Abs(Hash(key)) % modulo
  }

  /** hashToIndex: runs the djb2-style loop and reduces the result into [0, modulo). */
  method HashToIndex(str: seq<CodeUnit>, modulo: int) returns (idx: int)
    requires modulo > 0
    ensures 0 <= idx < modulo
    ensures idx == Index(str, modulo)
  {
    var hash := 5381;
    for i := 0 to |str|
      invariant hash == Hash(str[..i])
    {
      assert str[..i + 1][..i] == str[..i];
      hash := ShiftLeft5(hash) + hash + str[i];
    }
    assert str[..|str|] == str;
    idx := (if hash < 0 then -hash else hash) % modulo;
  }

  /** pickGradient: the preset at the key's bucket modulo the table length. */
  function PickGradient(key: seq<CodeUnit>): (g: Gradient)
    ensures g == Gradients[Index(key, |Gradients|)]
    ensures FullyRendered(g)
  {
    GradientsFullyRendered();
    Gradients[Index(key, |Gradients|)]
  }

  const Fallback: string := "linear-gradient(135deg,#475569,#0EA5E9)"

  /** An inline style; only `backgroundImage` is ever set. */
  datatype Style = Style(backgroundImage: string)

  /** What gradientClassOrStyle returns: a class name or an inline style. */
  datatype Rendering = Rendering(className: Option<string>, style: Option<Style>)

  /** JavaScript truthiness of an optional string: present and non-empty. */
  predicate Truthy(s: Option<string>) {
    s.Some? && s.value != ""
  }

  /** The priority chain of gradientClassOrStyle for one preset: the Tailwind
      class when the probe found Tailwind, else the CSS expression, else a
      fixed fallback. Exactly one of class name and style is set. */
  function Render(g: Gradient, hasTailwind: bool): (r: Rendering)
    ensures r.className.Some? != r.style.Some?
    ensures r.className.Some? <==> hasTailwind && Truthy(g.tw)
    ensures r.className.Some? ==> r.className == g.tw && r.className.value != ""
    ensures r.style.Some? && Truthy(g.css) ==> r.style == Some(Style(g.css.value))
    ensures r.style.Some? && !Truthy(g.css) ==> r.style == Some(Style(Fallback))
    ensures r.style.Some? ==> r.style.value.backgroundImage != ""
  {
    if hasTailwind && Truthy(g.tw) then Rendering(Some(g.tw.value), None)
    else if Truthy(g.css) then Rendering(None, Some(Style(g.css.value)))
    else Rendering(None, Some(Style(Fallback)))
  }

  /** gradientClassOrStyle, with the DOM probe for Tailwind passed in as
      `hasTailwind`. Every preset has both renderings, so with this table the
      class is used exactly when Tailwind is present and the preset's own CSS
      otherwise; the fallback branch is never taken. */
  function GradientClassOrStyle(key: seq<CodeUnit>, hasTailwind: bool): (r: Rendering)
    ensures hasTailwind ==> r == Rendering(PickGradient(key).tw, None)
    ensures hasTailwind ==> r.className.Some? && TwPrefix <= r.className.value
    ensures !hasTailwind ==> r == Rendering(None, Some(Style(PickGradient(key).css.value)))
    ensures !hasTailwind ==> r.style.Some? && CssPrefix <= r.style.value.backgroundImage
  {
    Render(PickGradient(key), hasTailwind)
  }

  /** The empty key never enters the loop: it hashes to the seed, lands in
      bucket 5381 % 16 = 5 and gets the green-to-lime preset. */
  lemma EmptyKeyPicksGreenLime()
    ensures Hash([]) == 5381
    ensures Index([], |Gradients|) == 5
    ensures PickGradient([]).id == "green-lime"
  {
  }

  /** Appending a code unit runs one more iteration of the loop. */
  lemma HashSnoc(prefix: seq<CodeUnit>, c: CodeUnit)
    ensures Hash(prefix + [c]) == Step(Hash(prefix), c)
  {
    assert (prefix + [c])[..|prefix|] == prefix;
  }

  /** "abc" (code units 97, 98, 99) stays inside 32 bits: 193485963. */
  lemma AbcHash()
    ensures Hash([97, 98, 99]) == 193485963
  {
    StepExact(5381, 97, 0);
    StepExact(177670, 98, 0);
    StepExact(5863208, 99, 0);
    HashSnoc([], 97);
    HashSnoc([97], 98);
    HashSnoc([97, 98], 99);
    assert [97, 98] == [97] + [98];
  }

  /** 193485963 falls in bucket 11, the sky-to-blue preset. */
  lemma AbcPicksSkyBlue()
    ensures Index([97, 98, 99], 16) == 11
    ensures PickGradient([97, 98, 99]).id == "sky-blue"
  {
    AbcHash();
    assert Index([97, 98, 99], 16) == 11;
  }

  /** Each step adds at most 2^31 + 0xFFFF in magnitude. */
  lemma {:induction false} HashMagnitude(key: seq<CodeUnit>)
    ensures Abs(Hash(key)) <= Seed + |key| * (Two31 + 0xFFFF)
  {
    if key != [] {
      HashMagnitude(key[..|key| - 1]);
      ShiftLeft5Wraps(Hash(key[..|key| - 1]));
    }
  }

  /** The accumulator is a JavaScript number, so the unbounded-integer model is
      exact as long as it stays below 2^53, which holds for every key of up to
      four million code units. */
  lemma HashIsSafeInteger(key: seq<CodeUnit>)
    requires |key| <= 4_000_000
    ensures -0x20_0000_0000_0000 < Hash(key) < 0x20_0000_0000_0000
  {
    HashMagnitude(key);
  }

  /** Classic djb2 with the accumulator reduced to signed 32 bits after every
      step, `h = ToInt32(33 * h + c)`. */
  function Hash32(key: seq<CodeUnit>): (h: int)
    ensures -Two31 <= h < Two31
  {
    if key == [] then Seed else ToInt32(33 * Hash32(key[..|key| - 1]) + key[|key| - 1])
  }

  /** The picker's accumulator is never reduced, yet it agrees with 32-bit
      djb2 modulo 2^32: the two differ only by a multiple of 2^32. */
  lemma {:induction false} HashAgreesWithHash32(key: seq<CodeUnit>)
    ensures ToInt32(Hash(key)) == Hash32(key)
  {
    if key != [] {
      var prefix, c := key[..|key| - 1], key[|key| - 1];
      var h := Hash(prefix);
      HashAgreesWithHash32(prefix);
      ShiftLeft5Wraps(h);
      var k1 := (h * 32 - ToInt32(h * 32)) / Two32;
      assert Step(h, c) == 33 * h + c - k1 * Two32;
      ToInt32Periodic(33 * h + c, -k1);
      var k2 := (h - ToInt32(h)) / Two32;
      assert 33 * h + c == 33 * Hash32(prefix) + c + (33 * k2) * Two32;
      ToInt32Periodic(33 * Hash32(prefix) + c, 33 * k2);
    }
  }

  /** The index 32-bit djb2 would give. */
  function Index32(key: seq<CodeUnit>, modulo: int): (i: int)
    requires modulo > 0
    ensures 0 <= i < modulo
  {
    Abs(Hash32(key)) % modulo
  }

  /** The loop on "bhhwoci": the shift wraps in the last four iterations and
      the final sum leaves the 32-bit range. */
  lemma BhhwociHash()
    ensures Hash([98, 104, 104, 119, 111, 99, 105]) == -2319418487
  {
    StepExact(5381, 98, 0);
    StepExact(177671, 104, 0);
    StepExact(5863247, 104, 0);
    StepExact(193487255, 119, 1);
    StepExact(2090112238, 111, 16);
    StepExact(254227229, 99, 2);
    StepExact(-200435936, 105, -1);
    var k1 := [] + [98 as CodeUnit];
    var k2 := k1 + [104 as CodeUnit];
    var k3 := k2 + [104 as CodeUnit];
    var k4 := k3 + [119 as CodeUnit];
    var k5 := k4 + [111 as CodeUnit];
    var k6 := k5 + [99 as CodeUnit];
    var k7 := k6 + [105 as CodeUnit];
    HashSnoc([], 98);
    HashSnoc(k1, 104);
    HashSnoc(k2, 104);
    HashSnoc(k3, 119);
    HashSnoc(k4, 111);
    HashSnoc(k5, 99);
    HashSnoc(k6, 105);
    assert k7 == [98, 104, 104, 119, 111, 99, 105];
  }

  /** Appending a code unit runs one more step of 32-bit djb2. */
  lemma Hash32Snoc(prefix: seq<CodeUnit>, c: CodeUnit)
    ensures Hash32(prefix + [c]) == ToInt32(33 * Hash32(prefix) + c)
  {
    assert (prefix + [c])[..|prefix|] == prefix;
  }

  /** 32-bit djb2 on "bhhwoci": the sum is reduced after every step. */
  lemma BhhwociHash32()
    ensures Hash32([98, 104, 104, 119, 111, 99, 105]) == 1975548809
  {
    ToInt32Exact(33 * 5381 + 98, 0);
    ToInt32Exact(33 * 177671 + 104, 0);
    ToInt32Exact(33 * 5863247 + 104, 0);
    ToInt32Exact(33 * 193487255 + 119, 1);
    ToInt32Exact(33 * 2090112238 + 111, 16);
    ToInt32Exact(33 * 254227229 + 99, 2);
    ToInt32Exact(33 * -200435936 + 105, -2);
    var k1 := [] + [98 as CodeUnit];
    var k2 := k1 + [104 as CodeUnit];
    var k3 := k2 + [104 as CodeUnit];
    var k4 := k3 + [119 as CodeUnit];
    var k5 := k4 + [111 as CodeUnit];
    var k6 := k5 + [99 as CodeUnit];
    var k7 := k6 + [105 as CodeUnit];
    Hash32Snoc([], 98);
    Hash32Snoc(k1, 104);
    Hash32Snoc(k2, 104);
    Hash32Snoc(k3, 119);
    Hash32Snoc(k4, 111);
    Hash32Snoc(k5, 99);
    Hash32Snoc(k6, 105);
    assert k7 == [98, 104, 104, 119, 111, 99, 105];
  }
  /** Because `Math.abs` sees the unreduced accumulator, the picker can choose
      a different preset than 32-bit djb2: "bhhwoci" ends at -2319418487 and
      falls in bucket 7 (orange-red), where 32-bit djb2 ends at 1975548809, the
      same value modulo 2^32, and would pick bucket 9. */
  lemma PickerDiffersFromHash32()
    ensures Hash([98, 104, 104, 119, 111, 99, 105]) == -2319418487
    ensures Hash32([98, 104, 104, 119, 111, 99, 105]) == 1975548809
    ensures Index([98, 104, 104, 119, 111, 99, 105], 16) == 7
    ensures Index32([98, 104, 104, 119, 111, 99, 105], 16) == 9
    ensures PickGradient([98, 104, 104, 119, 111, 99, 105]).id == "orange-red"
  {
    BhhwociHash();
    BhhwociHash32();
  }
}
