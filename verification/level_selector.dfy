/** The level selector of the main menu: the decimal digits of the selected
    level drawn as two digit sprites, and left/right presses that step the
    selection between level 1 and the highest level the player may choose. */
module LevelSelect {

  /** `MaxLevel`: the number of levels the game ships. */
  const MaxLevel := 16

  // ---------------------------------------------------------------- digits

  predicate IsDigit(d: int) {
    0 <= d <= 9
  }

  /** The number a digit sequence spells, most significant digit first. */
  function Value(ds: seq<int>): int {
    if ds == [] then 0 else Value(ds[..|ds| - 1]) * 10 + ds[|ds| - 1]
  }

  /** Decimal digits with no leading zero: the shape `GetIntArray` returns. */
  predicate Canonical(ds: seq<int>) {
    && (forall i | 0 <= i < |ds| :: IsDigit(ds[i]))
    && (ds != [] ==> ds[0] != 0)
  }

  /** The decimal digits of `n`, most significant first; none for `n <= 0`.
      The reference definition `GetIntArray` is checked against. */
  function Digits(n: int): (ds: seq<int>)
    ensures n <= 0 <==> ds == []
    ensures Canonical(ds)
    ensures 1 <= n <= 9 ==> ds == [n]
    decreases n
  {
    if n <= 0 then [] else Digits(n / 10) + [n % 10]
  }

  function Reverse(s: seq<int>): (r: seq<int>)
    ensures |r| == |s|
  {
    if s == [] then [] else [s[|s| - 1]] + Reverse(s[..|s| - 1])
  }

  /** `GetIntArray`: collect `num % 10` while `num > 0`, dividing by ten,
      then reverse. Only positive values are divided, so C#'s truncating
      division agrees with Dafny's here. */
  method GetIntArray(num: int) returns (ds: seq<int>)
    ensures ds == Digits(num)
    ensures num <= 0 <==> ds == []
    ensures Canonical(ds)
    ensures num > 0 ==> Value(ds) == num
  {
    var n := num;
    var listOfInts: seq<int> := [];
    while n > 0
      invariant Digits(num) == Digits(n) + Reverse(listOfInts)
      decreases n
    {
      var rest := listOfInts + [n % 10];
      assert rest[..|rest| - 1] == listOfInts;
      listOfInts := rest;
      n := n / 10;
    }
    ds := Reverse(listOfInts);
    DigitsValue(num);
  }

  /** Digits then value is the identity on positive numbers. */
  lemma {:induction false} DigitsValue(n: int)
    ensures n > 0 ==> Value(Digits(n)) == n
    decreases n
  {
    if n > 0 {
      var ds := Digits(n);
      assert ds[..|ds| - 1] == Digits(n / 10);
      DigitsValue(n / 10);
    }
  }

  /** A canonical digit sequence that is not empty spells a positive number. */
  lemma {:induction false} CanonicalValuePositive(ds: seq<int>)
    requires Canonical(ds)
    ensures ds != [] ==> Value(ds) >= 1
    ensures Value(ds) >= 0
    decreases |ds|
  {
    if ds != [] {
      var init := ds[..|ds| - 1];
      assert Canonical(init) by {
        forall i | 0 <= i < |init| ensures IsDigit(init[i]) {
          assert init[i] == ds[i];
        }
        if init != [] { assert init[0] == ds[0]; }
      }
      CanonicalValuePositive(init);
      if init == [] {
        assert ds == [ds[0]];
      }
    }
  }

  /** Value then digits is the identity on canonical sequences: every
      digit array `GetIntArray` can return comes from exactly one level. */
  lemma {:induction false} ValueDigits(ds: seq<int>)
    requires Canonical(ds)
    ensures Digits(Value(ds)) == ds
    decreases |ds|
  {
    if ds != [] {
      var init := ds[..|ds| - 1];
      var last := ds[|ds| - 1];
      assert IsDigit(last);
      assert Canonical(init) by {
        forall i | 0 <= i < |init| ensures IsDigit(init[i]) {
          assert init[i] == ds[i];
        }
        if init != [] { assert init[0] == ds[0]; }
      }
      CanonicalValuePositive(ds);
      CanonicalValuePositive(init);
      var v := Value(ds);
      assert v == Value(init) * 10 + last;
      assert v / 10 == Value(init) && v % 10 == last;
      ValueDigits(init);
      assert ds == init + [last];
    }
  }

  /** Levels 10 to 99 have two digits, the tens and the units. */
  lemma TwoDigitLevels(n: int)
    ensures 10 <= n <= 99 ==> Digits(n) == [n / 10, n % 10]
  {
    if 10 <= n <= 99 {
      assert Digits(n / 10) == [n / 10];
    }
  }

  // ---------------------------------------------------------------- display

  /** The two digit sprites, by the digit each shows, and the level handed to
      `SaveManager`. */
  datatype Shown = Shown(digitOne: int, digitTwo: int, savedLevel: int)

  /** `UpdateLevel` either draws the digits or indexes an empty array. */
  datatype Display = Drawn(shown: Shown) | IndexOutOfRange

  /** `UpdateLevel`: the first sprite is reset to zero; with two or more
      digits it shows the first two, otherwise the second sprite shows the
      only digit. A level below one has no digits and the lookup fails. */
  function UpdateLevel(level: int): (d: Display)
    ensures level <= 0 <==> d.IndexOutOfRange?
    ensures 1 <= level <= 99 ==> d == Drawn(Shown(level / 10, level % 10, level))
    ensures d.Drawn? ==> IsDigit(d.shown.digitOne) && IsDigit(d.shown.digitTwo) && d.shown.savedLevel == level
  {
    var ds := Digits(level);
    TwoDigitLevels(level);
    if |ds| > 1 then Drawn(Shown(ds[0], ds[1], level))
    else if |ds| == 1 then Drawn(Shown(0, ds[0], level))
    else IndexOutOfRange
  }

  /** From level 100 to 999 the sprites show the hundreds and the tens: the
      units digit is dropped. */
  lemma ThreeDigitLevels(n: int)
    requires 100 <= n <= 999
    ensures UpdateLevel(n) == Drawn(Shown(n / 100, (n / 10) % 10, n))
  {
    TwoDigitLevels(n / 10);
    assert Digits(n) == Digits(n / 10) + [n % 10];
  }

  // ---------------------------------------------------------------- selection

  datatype Selector = Selector(maxLevel: int, maxAvailableLevel: int, selectedLevel: int)

  /** `HighestLevel`: the last level unlocked, but never past the last level
      the game has. */
  function HighestLevel(s: Selector): (h: int)
    ensures h <= s.maxAvailableLevel && h <= s.maxLevel
    ensures h == s.maxAvailableLevel || h == s.maxLevel
  {
    if s.maxAvailableLevel < s.maxLevel then s.maxAvailableLevel else s.maxLevel
  }

  /** A press moves the selection and redraws it. */
  datatype Pressed = Pressed(selector: Selector, display: Display)

  /** `RightPress`: one level up, but no higher than `HighestLevel`. */
  function RightPress(s: Selector): (p: Pressed)
    ensures p.selector == s.(selectedLevel := p.selector.selectedLevel)
    ensures p.selector.selectedLevel <= s.selectedLevel + 1 && p.selector.selectedLevel <= HighestLevel(s)
    ensures p.selector.selectedLevel == s.selectedLevel + 1 || p.selector.selectedLevel == HighestLevel(s)
    ensures p.display == UpdateLevel(p.selector.selectedLevel)
  {
    var h := HighestLevel(s);
    var level := if s.selectedLevel + 1 > h then h else s.selectedLevel + 1;
    Pressed(s.(selectedLevel := level), UpdateLevel(level))
  }

  /** `LeftPress`: one level down, but no lower than level 1. */
  function LeftPress(s: Selector): (p: Pressed)
    ensures p.selector == s.(selectedLevel := p.selector.selectedLevel)
    ensures p.selector.selectedLevel >= s.selectedLevel - 1 && p.selector.selectedLevel >= 1
    ensures p.selector.selectedLevel == s.selectedLevel - 1 || p.selector.selectedLevel == 1
    ensures p.display == UpdateLevel(p.selector.selectedLevel)
  {
    var level := if s.selectedLevel - 1 < 1 then 1 else s.selectedLevel - 1;
    Pressed(s.(selectedLevel := level), UpdateLevel(level))
  }

  /** `Start`: a level chosen earlier in the session (above 1) wins over the
      saved one; the unlocked count comes from the save data. */
  function Start(sessionLevel: int, loadedLevel: int, loadedAvailable: int): (p: Pressed)
    ensures p.selector.maxLevel == MaxLevel && p.selector.maxAvailableLevel == loadedAvailable
    ensures sessionLevel > 1 ==> p.selector.selectedLevel == sessionLevel
    ensures sessionLevel <= 1 ==> p.selector.selectedLevel == loadedLevel
    ensures p.display == UpdateLevel(p.selector.selectedLevel)
  {
    var level := if sessionLevel > 1 then sessionLevel else loadedLevel;
    Pressed(Selector(MaxLevel, loadedAvailable, level), UpdateLevel(level))
  }

  /** The selection is a level the player may choose. */
  predicate InBounds(s: Selector) {
    1 <= s.selectedLevel <= HighestLevel(s)
  }

  /** Presses keep an in-bounds selection in bounds, and every redraw then
      succeeds. */
  lemma PressesKeepBounds(s: Selector)
    requires InBounds(s)
    ensures InBounds(RightPress(s).selector) && RightPress(s).display.Drawn?
    ensures InBounds(LeftPress(s).selector) && LeftPress(s).display.Drawn?
  {
  }

  /** Left undoes right, and right undoes left, away from the ends. */
  lemma PressesInverse(s: Selector)
    requires InBounds(s)
    ensures s.selectedLevel < HighestLevel(s) ==> LeftPress(RightPress(s).selector).selector == s
    ensures 1 < s.selectedLevel ==> RightPress(LeftPress(s).selector).selector == s
  {
  }

  /** At the ends a press stays put. */
  lemma PressesStopAtEnds(s: Selector)
    requires InBounds(s)
    ensures s.selectedLevel == HighestLevel(s) ==> RightPress(s).selector == s
    ensures s.selectedLevel == 1 ==> LeftPress(s).selector == s
  {
  }
}
