/** Two sessions worked through on the model: the weighted odds of a
    weak word over a well-known one, and a wrong answer that is saved
    and found again after a restart. */
module Scenarios {
  import opened Wrappers
  import opened Text
  import opened Vocabulary
  import opened Selection
  import opened FlashCards

  /** HELLO with three wrong answers weighs 4 and THANKS with five right
      answers weighs 1/6, so HELLO (listed first) is drawn exactly when
      `random()` is below 24/25. */
  lemma WeakWordOdds(u: real)
    requires 0.0 <= u < 1.0
    ensures Choose([Weight(Counts(0, 3)), Weight(Counts(5, 0))], u) == 0 <==> u < 24.0 / 25.0
  {
    var ws := [Weight(Counts(0, 3)), Weight(Counts(5, 0))];
    assert ws == [4.0, 1.0 / 6.0];
    assert ws[..0] == [] && ws[..1] == [4.0] && ws[..1][..0] == [];
    assert Sum(ws) == 25.0 / 6.0;
    ChooseIff(ws, u, 0);
  }

  /** Two rows load as their trimmed cells, in row order. */
  lemma TwoRowsTrimmed(a: string, b: string)
    ensures Trims([a, b]) == [Trim(a), Trim(b)]
  {
    var column := [a, b];
    assert column[..1] == [a] && column[..1][..0] == [];
  }

  /** Two different keys keep their order. */
  lemma TwoKeysDistinct(x: string, y: string)
    requires x != y
    ensures Distinct([x, y]) == [x, y]
  {
    Extend([], x);
    assert [] + [x] == [x];
    Extend([x], y);
    assert [x] + [y] == [x, y];
  }

  /** `random()` = 0 draws the first word of the list. */
  lemma ZeroDrawsFirst(ws: seq<real>)
    requires AllPositive(ws) && ws != []
    ensures Choose(ws, 0.0) == 0
  {
    assert ws[..0] == [];
    ChooseIff(ws, 0.0, 0);
  }

  lemma TwoFreshWords(x: string, y: string)
    ensures Restore(Fresh([x, y]), None) == map[x := NoAnswers, y := NoAnswers]
  {
  }

  lemma FirstOfTwoWrong(x: string, y: string)
    requires x != y
    ensures RecordWrong(map[x := NoAnswers, y := NoAnswers], x) == map[x := Counts(0, 1), y := Counts(0, 0)]
  {
  }

  /** A fresh session over a word list of two rows whose cells trim to
      different words (HELLO and THANKS, say) with no progress file: the
      first draw with `random()` = 0 shows the first word, the user
      answers wrong, and the file written then holds one wrong answer for
      it and none for the other. */
  method WrongAnswerIsPersisted(a: string, b: string) returns (saved: Option<Table>)
    requires Trim(a) != Trim(b)
    ensures saved == Some(map[Trim(a) := Counts(0, 1), Trim(b) := Counts(0, 0)])
  {
    var x, y := Trim(a), Trim(b);
    TwoRowsTrimmed(a, b);
    TwoKeysDistinct(x, y);
    TwoFreshWords(x, y);
    FirstOfTwoWrong(x, y);
    var first := Launch([a, b], None, 0.0);
    var app := first.value;
    ZeroDrawsFirst(Weights(app.words, app.order));
    var _ := app.GotItWrong("lookup", 0.5);
    saved := app.progressFile;
  }

  /** A session started over the same word list as the one that saved
      the progress file starts from exactly the saved table. */
  lemma RestartRestores(column: seq<string>, saved: Table)
    requires saved.Keys == Fresh(Trims(column)).Keys
    ensures Restore(Fresh(Trims(column)), Some(saved)) == saved
  {
    SaveThenLoad(Fresh(Trims(column)), saved);
  }
}
