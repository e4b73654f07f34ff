// Numbering the titles of copied tabs (src/lib/tabsState.ts).
module TabTitles {
  // A number as it is written.
  function Decimal(n: nat): (r: string)
    ensures r != []
  {
    var digit := [('0' as int + n % 10) as char];
    if n < 10 then digit else Decimal(n / 10) + digit
  }

  function Value(digits: string): int {
    if digits == [] then 0
    else 10 * Value(digits[..|digits| - 1]) + (digits[|digits| - 1] as int - '0' as int)
  }

  lemma {:induction false} ValueOfDecimal(n: nat)
    ensures Value(Decimal(n)) == n
  {
    var digit := [('0' as int + n % 10) as char];
    if n < 10 {
      assert digit[..0] == [];
      assert Value(digit) == 10 * Value(digit[..0]) + n;
    } else {
      ValueOfDecimal(n / 10);
      var whole := Decimal(n / 10) + digit;
      assert whole[..|whole| - 1] == Decimal(n / 10);
    }
  }

  function NumberedTitle(base: string, index: nat): string {
    base + "-" + Decimal(index)
  }

  lemma NumberedTitleIsInjective(base: string, i: nat, j: nat)
    requires NumberedTitle(base, i) == NumberedTitle(base, j)
    ensures i == j
  {
    var start := |base| + 1;
    assert NumberedTitle(base, i)[start..] == Decimal(i);
    assert NumberedTitle(base, j)[start..] == Decimal(j);
    ValueOfDecimal(i);
    ValueOfDecimal(j);
  }

  // The first index from `index` on whose title is not taken. A title once
  // passed is never met again, so it can be struck off.
  function FirstFreeIndex(base: string, titles: set<string>, index: nat): (r: nat)
    ensures r >= index
    decreases |titles|
  {
    if NumberedTitle(base, index) in titles
    then FirstFreeIndex(base, titles - {NumberedTitle(base, index)}, index + 1)
    else index
  }

  lemma {:induction false} FirstFreeIndexIsFree(base: string, titles: set<string>, index: nat)
    ensures var r := FirstFreeIndex(base, titles, index);
      && NumberedTitle(base, r) !in titles
      && forall i :: index <= i < r ==> NumberedTitle(base, i) in titles
    decreases |titles|
  {
    if NumberedTitle(base, index) in titles {
      var rest := titles - {NumberedTitle(base, index)};
      FirstFreeIndexIsFree(base, rest, index + 1);
      var r := FirstFreeIndex(base, rest, index + 1);
      if NumberedTitle(base, r) == NumberedTitle(base, index) {
        NumberedTitleIsInjective(base, r, index);
      }
    }
  }

  // Counts `n` up until no tab is called `base-n`.
  function DuplicateTitle(base: string, titles: set<string>): string {
    NumberedTitle(base, FirstFreeIndex(base, titles, 2))
  }

  lemma DuplicateTitleIsFree(base: string, titles: set<string>)
    ensures DuplicateTitle(base, titles) !in titles
    ensures var index := FirstFreeIndex(base, titles, 2);
      DuplicateTitle(base, titles) == NumberedTitle(base, index)
          && forall i :: 2 <= i < index ==> NumberedTitle(base, i) in titles
  {
    FirstFreeIndexIsFree(base, titles, 2);
  }

  // The source's loop, which ends because only so many titles can be taken.
  method GetDuplicateTabTitle(base: string, titles: set<string>) returns (title: string)
    ensures title == DuplicateTitle(base, titles)
    ensures title !in titles
  {
    var index := 2;
    ghost var unmet := titles;
    while NumberedTitle(base, index) in titles
      invariant index >= 2 && unmet <= titles
      invariant forall i: nat :: i >= index && NumberedTitle(base, i) in titles ==> NumberedTitle(base, i) in unmet
      invariant FirstFreeIndex(base, unmet, index) == FirstFreeIndex(base, titles, 2)
      decreases unmet
    {
      forall i: nat | i > index ensures NumberedTitle(base, i) != NumberedTitle(base, index) {
        if NumberedTitle(base, i) == NumberedTitle(base, index) {
          NumberedTitleIsInjective(base, i, index);
        }
      }
      unmet := unmet - {NumberedTitle(base, index)};
      index := index + 1;
    }
    title := NumberedTitle(base, index);
  }
}
