/** The 64x32 one-bit screen. Drawing a sprite XORs it in, wrapping around on both axes. */
module Display {
  import opened Bytes
  import opened Words
  import Permutations

  const WIDTH := 64
  const HEIGHT := 32

  /** Pixel (x, y) is stored at x * 32 + y. */
  type Screen = s: seq<bool> | |s| == 2048 witness seq(2048, _ => false)

  /** A cleared screen. */
  function Blank(): (s: Screen)
    ensures forall c :: 0 <= c < 2048 ==> !s[c]
  {
    seq(2048, _ => false)
  }

  function Cell(x: nat, y: nat): (c: nat)
    requires x < WIDTH && y < HEIGHT
    ensures c < 2048
  {
    x * HEIGHT + y
  }

  /** The screen cell under sprite bit `off` (from the left) of row `i`. */
  function CellAt(x: byte, y: byte, i: nat, off: nat): (c: nat)
    ensures c < 2048
  {
    Cell((x + off) % WIDTH, (y + i) % HEIGHT)
  }

  predicate SpriteBit(sprite: seq<byte>, i: nat, off: nat)
    requires i < |sprite| && off < 8
  {
    BitIsSet(sprite[i], 7 - off)
  }

  datatype Drawn = Drawn(screen: Screen, erased: bool)

  /** The rest of a drawing, from bit `off` of row `i` on. A lit pixel under a zero bit sets the flag. */
  function DrawFrom(d: Drawn, x: byte, y: byte, sprite: seq<byte>, i: nat, off: nat): (r: Drawn)
    requires i <= |sprite| && off <= 8
    decreases |sprite| - i, 8 - off
  {
    if i == |sprite| then d
    else if off == 8 then DrawFrom(d, x, y, sprite, i + 1, 0)
    else DrawFrom(DrawBit(d, CellAt(x, y, i, off), SpriteBit(sprite, i, off)), x, y, sprite, i, off + 1)
  }

  function DrawBit(d: Drawn, c: nat, bit: bool): (r: Drawn)
    requires c < 2048
  {
    Drawn(d.screen[c := d.screen[c] != bit], d.erased || (d.screen[c] && !bit))
  }

  function DrawSprite(screen: Screen, x: byte, y: byte, sprite: seq<byte>): Drawn {
    DrawFrom(Drawn(screen, false), x, y, sprite, 0, 0)
  }

  /** Bit `o` of row `j` is set and lands on cell `c`. */
  predicate Lands(x: byte, y: byte, sprite: seq<byte>, c: nat, j: nat, o: nat) {
    j < |sprite| && o < 8 && SpriteBit(sprite, j, o) && CellAt(x, y, j, o) == c
  }

  /** The set bits of a sprite that land on cell `c`. */
  ghost function Landing(x: byte, y: byte, sprite: seq<byte>, c: nat): (hits: set<(nat, nat)>) {
    LandingFrom(x, y, sprite, c, 0, 0)
  }

  predicate NotBefore(j: nat, o: nat, i: nat, off: nat) { i < j || (i == j && off <= o) }

  ghost function LandingFrom(x: byte, y: byte, sprite: seq<byte>, c: nat, i: nat, off: nat): (hits: set<(nat, nat)>) {
    set j: nat, o: nat | 0 <= j < |sprite| && 0 <= o < 8 && NotBefore(j, o, i, off) && Lands(x, y, sprite, c, j, o) :: (j, o)
  }

  predicate Odd(n: nat) { n % 2 == 1 }

  /** A drawing flips each pixel as often as set sprite bits land on it. */
  lemma {:induction false} DrawFlipsHits(d: Drawn, x: byte, y: byte, sprite: seq<byte>, i: nat, off: nat, c: nat)
    requires i <= |sprite| && off <= 8 && c < 2048
    ensures DrawFrom(d, x, y, sprite, i, off).screen[c] == (d.screen[c] != Odd(|LandingFrom(x, y, sprite, c, i, off)|))
    decreases |sprite| - i, 8 - off
  {
    if i == |sprite| {
      assert LandingFrom(x, y, sprite, c, i, off) == {};
    } else if off == 8 {
      DrawFlipsHits(d, x, y, sprite, i + 1, 0, c);
      LandingRowEnd(x, y, sprite, c, i);
    } else {
      var bit, at := SpriteBit(sprite, i, off), CellAt(x, y, i, off);
      DrawFlipsHits(DrawBit(d, at, bit), x, y, sprite, i, off + 1, c);
      LandingStep(x, y, sprite, c, i, off);
      DrawStep(d, x, y, sprite, i, off);
      OddSum(|LandingFrom(x, y, sprite, c, i, off + 1)|, 1);
    }
  }

  lemma OddSum(m: nat, n: nat)
    ensures Odd(m + n) == (Odd(m) != Odd(n))
  {
  }

  lemma DrawStep(d: Drawn, x: byte, y: byte, sprite: seq<byte>, i: nat, off: nat)
    requires i < |sprite| && off < 8
    ensures DrawFrom(d, x, y, sprite, i, off) ==
              DrawFrom(DrawBit(d, CellAt(x, y, i, off), SpriteBit(sprite, i, off)), x, y, sprite, i, off + 1)
  {
  }

  lemma LandingRowEnd(x: byte, y: byte, sprite: seq<byte>, c: nat, i: nat)
    ensures LandingFrom(x, y, sprite, c, i, 8) == LandingFrom(x, y, sprite, c, i + 1, 0)
  {
  }

  lemma LandingStep(x: byte, y: byte, sprite: seq<byte>, c: nat, i: nat, off: nat)
    requires i < |sprite| && off < 8
    ensures |LandingFrom(x, y, sprite, c, i, off)| ==
              |LandingFrom(x, y, sprite, c, i, off + 1)| +
              if SpriteBit(sprite, i, off) && CellAt(x, y, i, off) == c then 1 else 0
  {
    var hits, later := LandingFrom(x, y, sprite, c, i, off), LandingFrom(x, y, sprite, c, i, off + 1);
    var first := if Lands(x, y, sprite, c, i, off) then {(i, off)} else {};
    forall p: (nat, nat) ensures p in hits <==> p in later + first {
      assert NotBefore(p.0, p.1, i, off) <==> NotBefore(p.0, p.1, i, off + 1) || p == (i, off);
    }
    assert hits == later + first;
    assert later !! first;
  }

  lemma SpriteFlipsHits(screen: Screen, d: Drawing, c: nat)
    requires c < 2048
    ensures Draw(screen, d)[c] == (screen[c] != Odd(|Landing(d.x, d.y, d.sprite, c)|))
  {
    DrawFlipsHits(Drawn(screen, false), d.x, d.y, d.sprite, 0, 0, c);
  }

  // ---------------------------------------------------------------- sequences of drawings

  datatype Drawing = Drawing(x: byte, y: byte, sprite: seq<byte>)

  function Draw(screen: Screen, d: Drawing): (screen': Screen) {
    DrawSprite(screen, d.x, d.y, d.sprite).screen
  }

  function DrawAll(screen: Screen, ds: seq<Drawing>): (screen': Screen)
    decreases |ds|
  {
    if ds == [] then screen
    else DrawAll(Draw(screen, ds[0]), ds[1..])
  }

  ghost function TotalHits(ds: seq<Drawing>, c: nat): nat {
    if ds == [] then 0 else |Landing(ds[0].x, ds[0].y, ds[0].sprite, c)| + TotalHits(ds[1..], c)
  }

  /** After any sequence of drawings each pixel has been flipped once for every set bit that landed on it. */
  lemma {:induction false} DrawingsAreParity(screen: Screen, ds: seq<Drawing>, c: nat)
    requires c < 2048
    ensures DrawAll(screen, ds)[c] == (screen[c] != Odd(TotalHits(ds, c)))
    decreases |ds|
  {
    if ds != [] {
      SpriteFlipsHits(screen, ds[0], c);
      OddSum(|Landing(ds[0].x, ds[0].y, ds[0].sprite, c)|, TotalHits(ds[1..], c));
      DrawingsAreParity(Draw(screen, ds[0]), ds[1..], c);
    }
  }

  /** So after a clear a pixel is lit exactly when an odd number of bits landed on it. */
  lemma LitIffOddHits(ds: seq<Drawing>, c: nat)
    requires c < 2048
    ensures DrawAll(Blank(), ds)[c] <==> Odd(TotalHits(ds, c))
  {
    DrawingsAreParity(Blank(), ds, c);
  }

  lemma {:induction false} HitsOfRest(ds: seq<Drawing>, c: nat, i: nat)
    requires i < |ds|
    ensures TotalHits(ds, c) == |Landing(ds[i].x, ds[i].y, ds[i].sprite, c)| + TotalHits(ds[..i] + ds[i + 1..], c)
  {
    var rest := ds[..i] + ds[i + 1..];
    if i == 0 {
      assert rest == ds[1..];
    } else {
      HitsOfRest(ds[1..], c, i - 1);
      assert rest[1..] == ds[1..][..i - 1] + ds[1..][i..];
    }
  }

  lemma {:induction false} HitsIgnoreOrder(ds: seq<Drawing>, ds': seq<Drawing>, c: nat)
    requires multiset(ds) == multiset(ds')
    ensures TotalHits(ds, c) == TotalHits(ds', c)
    decreases |ds'|
  {
    Permutations.SameLength(ds, ds');
    if ds' != [] {
      var i := Permutations.MemberOf(ds, ds');
      Permutations.RestOf(ds, ds', i);
      HitsOfRest(ds, c, i);
      HitsIgnoreOrder(ds[..i] + ds[i + 1..], ds'[1..], c);
    }
  }

  /** Any order of the same drawings gives the same screen. */
  lemma DrawingOrderDoesNotMatter(screen: Screen, ds: seq<Drawing>, ds': seq<Drawing>)
    requires multiset(ds) == multiset(ds')
    ensures DrawAll(screen, ds) == DrawAll(screen, ds')
  {
    forall c | 0 <= c < 2048 ensures DrawAll(screen, ds)[c] == DrawAll(screen, ds')[c] {
      HitsIgnoreOrder(ds, ds', c);
      DrawingsAreParity(screen, ds, c);
      DrawingsAreParity(screen, ds', c);
    }
  }

  /** Drawing a sprite twice restores the screen. */
  lemma DrawingTwiceRestores(screen: Screen, x: byte, y: byte, sprite: seq<byte>)
    ensures DrawSprite(DrawSprite(screen, x, y, sprite).screen, x, y, sprite).screen == screen
  {
    var once := DrawSprite(screen, x, y, sprite).screen;
    forall c | 0 <= c < 2048 ensures DrawSprite(once, x, y, sprite).screen[c] == screen[c] {
      DrawFlipsHits(Drawn(screen, false), x, y, sprite, 0, 0, c);
      DrawFlipsHits(Drawn(once, false), x, y, sprite, 0, 0, c);
    }
  }

  // ---------------------------------------------------------------- the flag

  /** Some bit of the given value, at or after bit `off` of row `i`, covers a lit pixel. */
  ghost predicate CoversLit(screen: Screen, x: byte, y: byte, sprite: seq<byte>, i: nat, off: nat, bit: bool) {
    exists j: nat, o: nat :: CoversAt(screen, x, y, sprite, i, off, bit, j, o)
  }

  predicate CoversAt(screen: Screen, x: byte, y: byte, sprite: seq<byte>, i: nat, off: nat, bit: bool, j: nat, o: nat) {
    && j < |sprite| && o < 8 && (i < j || (i == j && off <= o))
    && SpriteBit(sprite, j, o) == bit && screen[CellAt(x, y, j, o)]
  }

  /** Within 32 rows no cell is visited twice. */
  lemma CellsAreDistinct(x: byte, y: byte, i: nat, off: nat, j: nat, o: nat)
    requires i - 32 < j < i + 32 && off < 8 && o < 8 && (i != j || off != o)
    ensures CellAt(x, y, i, off) != CellAt(x, y, j, o)
  {
    if i != j { RowsDiffer(y, i, j); } else { ColumnsDiffer(x, off, o); }
  }

  lemma RowsDiffer(y: byte, i: nat, j: nat)
    requires i - 32 < j < i + 32 && i != j
    ensures (y + i) % HEIGHT != (y + j) % HEIGHT
  {
  }

  lemma ColumnsDiffer(x: byte, off: nat, o: nat)
    requires off < 8 && o < 8 && off != o
    ensures (x + off) % WIDTH != (x + o) % WIDTH
  {
  }

  lemma {:induction false} FlagFrom(d: Drawn, x: byte, y: byte, sprite: seq<byte>, i: nat, off: nat)
    requires i <= |sprite| <= i + 32 && off <= 8
    ensures DrawFrom(d, x, y, sprite, i, off).erased == (d.erased || CoversLit(d.screen, x, y, sprite, i, off, false))
    decreases |sprite| - i, 8 - off
  {
    if i == |sprite| {
    } else if off == 8 {
      FlagFrom(d, x, y, sprite, i + 1, 0);
      SameCover(d.screen, d.screen, x, y, sprite, i, 8, i + 1, 0);
    } else {
      var bit, at := SpriteBit(sprite, i, off), CellAt(x, y, i, off);
      var d' := DrawBit(d, at, bit);
      FlagFrom(d', x, y, sprite, i, off + 1);
      forall j: nat, o: nat | j < |sprite| && o < 8 && (i < j || (i == j && off + 1 <= o))
        ensures d'.screen[CellAt(x, y, j, o)] == d.screen[CellAt(x, y, j, o)]
      {
        CellsAreDistinct(x, y, i, off, j, o);
      }
      SameCover(d'.screen, d.screen, x, y, sprite, i, off + 1, i, off + 1);
      FirstOrLater(d.screen, x, y, sprite, i, off);
    }
  }

  lemma SameCover(s: Screen, s': Screen, x: byte, y: byte, sprite: seq<byte>, i: nat, off: nat, i': nat, off': nat)
    requires (i, off) == (i', off') || (off == 8 && i' == i + 1 && off' == 0)
    requires forall j: nat, o: nat :: j < |sprite| && o < 8 && (i < j || (i == j && off <= o)) ==>
               s[CellAt(x, y, j, o)] == s'[CellAt(x, y, j, o)]
    ensures CoversLit(s, x, y, sprite, i, off, false) == CoversLit(s', x, y, sprite, i', off', false)
  {
    if j: nat, o: nat :| CoversAt(s, x, y, sprite, i, off, false, j, o) {
      assert CoversAt(s', x, y, sprite, i', off', false, j, o);
    }
    if j: nat, o: nat :| CoversAt(s', x, y, sprite, i', off', false, j, o) {
      assert CoversAt(s, x, y, sprite, i, off, false, j, o);
    }
  }

  lemma FirstOrLater(s: Screen, x: byte, y: byte, sprite: seq<byte>, i: nat, off: nat)
    requires i < |sprite| && off < 8
    ensures CoversLit(s, x, y, sprite, i, off, false) ==
              ((s[CellAt(x, y, i, off)] && !SpriteBit(sprite, i, off)) || CoversLit(s, x, y, sprite, i, off + 1, false))
  {
    if s[CellAt(x, y, i, off)] && !SpriteBit(sprite, i, off) {
      assert CoversAt(s, x, y, sprite, i, off, false, i, off);
    }
    var next := off + 1;
    if j: nat, o: nat :| CoversAt(s, x, y, sprite, i, next, false, j, o) {
      assert CoversAt(s, x, y, sprite, i, off, false, j, o);
    }
    if j: nat, o: nat :| CoversAt(s, x, y, sprite, i, off, false, j, o) {
      assert (j == i && o == off) || CoversAt(s, x, y, sprite, i, next, false, j, o);
    }
  }

  /** The flag depends only on the starting screen: it is set exactly when a zero bit covers a lit pixel. */
  lemma FlagIsZeroOverLit(screen: Screen, x: byte, y: byte, sprite: seq<byte>)
    requires |sprite| <= 32
    ensures DrawSprite(screen, x, y, sprite).erased == CoversLit(screen, x, y, sprite, 0, 0, false)
  {
    FlagFrom(Drawn(screen, false), x, y, sprite, 0, 0);
  }

  /** The documented flag: some pixel that was lit is turned off. */
  ghost predicate SomePixelErased(screen: Screen, x: byte, y: byte, sprite: seq<byte>) {
    exists c :: 0 <= c < 2048 && screen[c] && !DrawSprite(screen, x, y, sprite).screen[c]
  }

  /** A pixel is erased exactly when a one bit covers a lit pixel. */
  lemma ErasedIsOneOverLit(screen: Screen, x: byte, y: byte, sprite: seq<byte>)
    requires |sprite| <= 32
    ensures SomePixelErased(screen, x, y, sprite) == CoversLit(screen, x, y, sprite, 0, 0, true)
  {
    var screen' := DrawSprite(screen, x, y, sprite).screen;
    forall c | 0 <= c < 2048 ensures |Landing(x, y, sprite, c)| <= 1 { AtMostOneHit(x, y, sprite, c); }
    if c :| 0 <= c < 2048 && screen[c] && !screen'[c] {
      DrawFlipsHits(Drawn(screen, false), x, y, sprite, 0, 0, c);
      assert Landing(x, y, sprite, c) != {};
      var hit :| hit in Landing(x, y, sprite, c);
      assert CoversAt(screen, x, y, sprite, 0, 0, true, hit.0, hit.1);
    }
    if j: nat, o: nat :| CoversAt(screen, x, y, sprite, 0, 0, true, j, o) {
      var c := CellAt(x, y, j, o);
      assert (j, o) in Landing(x, y, sprite, c);
      DrawFlipsHits(Drawn(screen, false), x, y, sprite, 0, 0, c);
      assert screen[c] && !screen'[c];
    }
  }

  lemma AtMostOneHit(x: byte, y: byte, sprite: seq<byte>, c: nat)
    requires |sprite| <= 32
    ensures |Landing(x, y, sprite, c)| <= 1
  {
    var hits := Landing(x, y, sprite, c);
    if hit :| hit in hits {
      forall other | other in hits ensures other == hit {
        if other != hit { CellsAreDistinct(x, y, hit.0, hit.1, other.0, other.1); }
      }
      assert hits == {hit};
    }
  }

  /** The flag as computed is the documented one exactly when the sprite covers no lit pixel at all, or
      covers lit pixels both with one bits and with zero bits. */
  lemma FlagIsDocumentedIff(screen: Screen, x: byte, y: byte, sprite: seq<byte>)
    requires |sprite| <= 32
    ensures DrawSprite(screen, x, y, sprite).erased == SomePixelErased(screen, x, y, sprite) <==>
              (CoversLit(screen, x, y, sprite, 0, 0, false) <==> CoversLit(screen, x, y, sprite, 0, 0, true))
  {
    FlagIsZeroOverLit(screen, x, y, sprite);
    ErasedIsOneOverLit(screen, x, y, sprite);
  }

  /** A drawing of at most 32 rows flips exactly the cells under its one bits. */
  lemma FlippedUnderBit(screen: Screen, x: byte, y: byte, sprite: seq<byte>, j: nat, o: nat)
    requires |sprite| <= 32 && j < |sprite| && o < 8
    ensures DrawSprite(screen, x, y, sprite).screen[CellAt(x, y, j, o)] ==
              (screen[CellAt(x, y, j, o)] != SpriteBit(sprite, j, o))
  {
    var c := CellAt(x, y, j, o);
    var hits := Landing(x, y, sprite, c);
    DrawFlipsHits(Drawn(screen, false), x, y, sprite, 0, 0, c);
    AtMostOneHit(x, y, sprite, c);
    if SpriteBit(sprite, j, o) {
      assert (j, o) in hits;
    } else if hits != {} {
      var hit :| hit in hits;
      CellsAreDistinct(x, y, j, o, hit.0, hit.1);
    }
  }

  /** The second of two drawings of a sprite sets the flag exactly when a zero bit covers a pixel that was lit
      before the first. */
  lemma RedrawFlagIff(screen: Screen, x: byte, y: byte, sprite: seq<byte>)
    requires |sprite| <= 32
    ensures var once := DrawSprite(screen, x, y, sprite).screen;
            DrawSprite(once, x, y, sprite).erased == CoversLit(screen, x, y, sprite, 0, 0, false)
  {
    var once := DrawSprite(screen, x, y, sprite).screen;
    FlagIsZeroOverLit(once, x, y, sprite);
    forall j: nat, o: nat ensures CoversAt(once, x, y, sprite, 0, 0, false, j, o) == CoversAt(screen, x, y, sprite, 0, 0, false, j, o) {
      if j < |sprite| && o < 8 { FlippedUnderBit(screen, x, y, sprite, j, o); }
    }
  }

  /** On a blank screen, redrawing a sprite that is not blank erases everything it drew, but the flag stays
      clear. */
  lemma FlagMissesErasures(x: byte, y: byte, sprite: seq<byte>, j: nat, o: nat)
    requires |sprite| <= 32 && j < |sprite| && o < 8 && SpriteBit(sprite, j, o)
    ensures var once := DrawSprite(Blank(), x, y, sprite).screen;
            SomePixelErased(once, x, y, sprite) && !DrawSprite(once, x, y, sprite).erased
  {
    var once := DrawSprite(Blank(), x, y, sprite).screen;
    FlippedUnderBit(Blank(), x, y, sprite, j, o);
    assert CoversAt(once, x, y, sprite, 0, 0, true, j, o);
    ErasedIsOneOverLit(once, x, y, sprite);
    RedrawFlagIff(Blank(), x, y, sprite);
  }

  // ---------------------------------------------------------------- the flag of longer sprites

  /** Drawing row by row: the rows before the last, and then the last. */
  lemma {:induction false} LastRow(d: Drawn, x: byte, y: byte, sprite: seq<byte>, i: nat, off: nat)
    requires i < |sprite| && off <= 8
    ensures DrawFrom(d, x, y, sprite, i, off) ==
              if i == |sprite| - 1 then DrawFrom(d, x, y, sprite, i, off)
              else DrawFrom(DrawFrom(d, x, y, sprite[..|sprite| - 1], i, off), x, y, sprite, |sprite| - 1, 0)
    decreases |sprite| - i, 8 - off
  {
    var rest := sprite[..|sprite| - 1];
    if i < |sprite| - 1 {
      if off == 8 {
        LastRow(d, x, y, sprite, i + 1, 0);
        if i + 1 == |sprite| - 1 { assert DrawFrom(d, x, y, rest, i, off) == d; }
      } else {
        LastRow(DrawBit(d, CellAt(x, y, i, off), SpriteBit(sprite, i, off)), x, y, sprite, i, off + 1);
      }
    }
  }

  /** Zero bit `o` of row `j` covers a pixel that is lit once the rows before have been drawn. */
  predicate MeetsLit(screen: Screen, x: byte, y: byte, sprite: seq<byte>, j: nat, o: nat) {
    && j < |sprite| && o < 8 && !SpriteBit(sprite, j, o)
    && DrawSprite(screen, x, y, sprite[..j]).screen[CellAt(x, y, j, o)]
  }

  /** For sprites of any length the flag is set exactly when some zero bit meets a pixel that is lit at its
      turn. */
  lemma {:induction false} FlagIsZeroMeetsLit(screen: Screen, x: byte, y: byte, sprite: seq<byte>)
    ensures DrawSprite(screen, x, y, sprite).erased <==> exists j: nat, o: nat :: MeetsLit(screen, x, y, sprite, j, o)
    decreases |sprite|
  {
    if sprite != [] {
      var last := |sprite| - 1;
      var before := sprite[..last];
      var d := DrawSprite(screen, x, y, before);
      FlagIsZeroMeetsLit(screen, x, y, before);
      LastRow(Drawn(screen, false), x, y, sprite, 0, 0);
      assert last == 0 ==> d == Drawn(screen, false);
      FlagFrom(d, x, y, sprite, last, 0);
      forall j: nat, o: nat ensures MeetsLit(screen, x, y, sprite, j, o) <==>
          MeetsLit(screen, x, y, before, j, o) || CoversAt(d.screen, x, y, sprite, last, 0, false, j, o)
      {
        if j < last { assert before[..j] == sprite[..j]; }
      }
    }
  }

  /** And a pixel that was lit is turned off exactly when an odd number of one bits land on it. */
  lemma ErasedIffOddHits(screen: Screen, x: byte, y: byte, sprite: seq<byte>)
    ensures SomePixelErased(screen, x, y, sprite) <==>
              exists c :: 0 <= c < 2048 && screen[c] && Odd(|Landing(x, y, sprite, c)|)
  {
    forall c | 0 <= c < 2048 && screen[c]
      ensures DrawSprite(screen, x, y, sprite).screen[c] == !Odd(|Landing(x, y, sprite, c)|)
    {
      DrawFlipsHits(Drawn(screen, false), x, y, sprite, 0, 0, c);
    }
  }

  // ---------------------------------------------------------------- drawings in numbers

  /** Sprite bits are read from the left: bit 7 - o of a row lies o columns from the sprite's left edge. */
  lemma SpriteBitInNumbers(sprite: seq<byte>, j: nat, o: nat)
    requires j < |sprite| && o < 8
    ensures SpriteBit(sprite, j, o) <==> sprite[j] / Pow2(7 - o) % 2 == 1
  {
    BitIsDigit(sprite[j], 7 - o);
  }

  /** Which bits land on the pixel in column `column` and row `row`, for sprites of any length. */
  lemma LandingInNumbers(x: byte, y: byte, sprite: seq<byte>, column: nat, row: nat, j: nat, o: nat)
    requires column < 64 && row < 32
    ensures (j, o) in Landing(x, y, sprite, column * 32 + row) <==>
              && j < |sprite| && o < 8 && sprite[j] / Pow2(7 - o) % 2 == 1
              && (x as int + o) % 64 == column && (y as int + j) % 32 == row
  {
    if j < |sprite| && o < 8 { SpriteBitInNumbers(sprite, j, o); }
    CellsDiffer((x + o) % WIDTH, (y + j) % HEIGHT, column, row);
  }

  lemma CellsDiffer(column: nat, row: nat, column': nat, row': nat)
    requires column < 64 && row < 32 && column' < 64 && row' < 32
    ensures Cell(column, row) == column' * 32 + row' <==> column == column' && row == row'
  {
  }

  /** A drawing of at most 32 rows flips the pixel under each one bit... */
  lemma BitFlipsPixel(screen: Screen, x: byte, y: byte, sprite: seq<byte>, j: nat, o: nat)
    requires |sprite| <= 32 && j < |sprite| && o < 8
    ensures var c := (x as int + o) % 64 * 32 + (y as int + j) % 32;
            DrawSprite(screen, x, y, sprite).screen[c] == (screen[c] != (sprite[j] / Pow2(7 - o) % 2 == 1))
  {
    FlippedUnderBit(screen, x, y, sprite, j, o);
    SpriteBitInNumbers(sprite, j, o);
  }

  lemma WrapsOnce(x: int, o: int, column: int, size: int)
    requires 0 <= o < size && 0 <= column < size && (size == 64 || size == 32)
    ensures (x + o) % size == column <==> (column - x) % size == o
  {
  }

  lemma LandsWithin(x: byte, y: byte, column: nat, row: nat, j: nat, o: nat)
    requires column < 64 && row < 32 && o < 8 && (x as int + o) % 64 == column && (y as int + j) % 32 == row
    ensures (column - x) % 64 == o && (row - y) % 32 <= j
  {
    WrapsOnce(x, o, column, 64);
    assert (y as int + j % 32) % 32 == row;
    WrapsOnce(y, j % 32, row, 32);
  }

  /** ... and leaves alone the pixels that no sprite bit covers, whatever the number of rows. */
  lemma OtherPixelsStay(screen: Screen, x: byte, y: byte, sprite: seq<byte>, column: nat, row: nat)
    requires column < 64 && row < 32
    requires (column - x) % 64 >= 8 || (row - y) % 32 >= |sprite|
    ensures DrawSprite(screen, x, y, sprite).screen[column * 32 + row] == screen[column * 32 + row]
  {
    NothingLands(x, y, sprite, column, row);
    DrawFlipsHits(Drawn(screen, false), x, y, sprite, 0, 0, column * 32 + row);
  }

  lemma NothingLands(x: byte, y: byte, sprite: seq<byte>, column: nat, row: nat)
    requires column < 64 && row < 32
    requires (column - x) % 64 >= 8 || (row - y) % 32 >= |sprite|
    ensures Landing(x, y, sprite, column * 32 + row) == {}
  {
    var hits := Landing(x, y, sprite, column * 32 + row);
    if hits != {} {
      var hit :| hit in hits;
      LandingInNumbers(x, y, sprite, column, row, hit.0, hit.1);
      LandsWithin(x, y, column, row, hit.0, hit.1);
      assert false;
    }
  }

  /** So the sprite bit over a pixel is told by how far, around the edges, the pixel lies from (x, y). */
  lemma PixelInNumbers(screen: Screen, x: byte, y: byte, sprite: seq<byte>, column: nat, row: nat)
    requires |sprite| <= 32 && column < 64 && row < 32
    ensures var o, j := (column - x) % 64, (row - y) % 32;
            DrawSprite(screen, x, y, sprite).screen[column * 32 + row] ==
              (screen[column * 32 + row] != (o < 8 && j < |sprite| && sprite[j] / Pow2(7 - o) % 2 == 1))
  {
    var o, j := (column - x) % 64, (row - y) % 32;
    WrapsOnce(x, o, column, 64);
    WrapsOnce(y, j, row, 32);
    if o < 8 && j < |sprite| {
      BitFlipsPixel(screen, x, y, sprite, j, o);
    } else {
      OtherPixelsStay(screen, x, y, sprite, column, row);
    }
  }

  /** The pixel in column `column` and row `row` is lit and lies under a zero bit. */
  ghost predicate ZeroOverPixel(screen: Screen, x: byte, y: byte, sprite: seq<byte>, column: nat, row: nat) {
    && column < 64 && row < 32 && screen[column * 32 + row]
    && (column - x) % 64 < 8 && (row - y) % 32 < |sprite|
    && sprite[(row - y) % 32] / Pow2(7 - (column - x) % 64) % 2 != 1
  }

  lemma ZeroBitOver(screen: Screen, x: byte, y: byte, sprite: seq<byte>, j: nat, o: nat)
    requires |sprite| <= 32 && CoversAt(screen, x, y, sprite, 0, 0, false, j, o)
    ensures ZeroOverPixel(screen, x, y, sprite, (x as int + o) % 64, (y as int + j) % 32)
  {
    SpriteBitInNumbers(sprite, j, o);
    WrapsOnce(x, o, (x as int + o) % 64, 64);
    WrapsOnce(y, j, (y as int + j) % 32, 32);
  }

  lemma ZeroPixelUnder(screen: Screen, x: byte, y: byte, sprite: seq<byte>, column: nat, row: nat)
    requires ZeroOverPixel(screen, x, y, sprite, column, row)
    ensures CoversAt(screen, x, y, sprite, 0, 0, false, (row - y) % 32, (column - x) % 64)
  {
    var o, j := (column - x) % 64, (row - y) % 32;
    WrapsOnce(x, o, column, 64);
    WrapsOnce(y, j, row, 32);
    SpriteBitInNumbers(sprite, j, o);
  }

  /** The flag in numbers. */
  lemma FlagInNumbers(screen: Screen, x: byte, y: byte, sprite: seq<byte>)
    requires |sprite| <= 32
    ensures DrawSprite(screen, x, y, sprite).erased <==>
              exists column: nat, row: nat :: ZeroOverPixel(screen, x, y, sprite, column, row)
  {
    FlagIsZeroOverLit(screen, x, y, sprite);
    if j: nat, o: nat :| CoversAt(screen, x, y, sprite, 0, 0, false, j, o) {
      ZeroBitOver(screen, x, y, sprite, j, o);
    }
    if column: nat, row: nat :| ZeroOverPixel(screen, x, y, sprite, column, row) {
      ZeroPixelUnder(screen, x, y, sprite, column, row);
    }
  }
}
