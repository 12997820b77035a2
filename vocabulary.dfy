/** The word table of the flashcard app: every word of the vocabulary
    with its right/wrong counters, how it is built from the first column
    of the word list, and how stored progress is merged into it. */
module Vocabulary {
  import opened Wrappers
  import opened Text

  /** The `{"right": .., "wrong": ..}` record kept per word. */
  datatype Counts = Counts(right: nat, wrong: nat)

  /** A word that has never been answered. */
  const NoAnswers := Counts(0, 0)

  /** `self.words`: word -> counters. */
  type Table = map<string, Counts>

  /** The first-column cells, each trimmed, in row order. */
  function Trims(column: seq<string>): (cells: seq<string>)
    ensures |cells| == |column|
  {
    if column == [] then [] else Trims(column[..|column| - 1]) + [Trim(column[|column| - 1])]
  }

  /** Cell `i` of the trimmed column is row `i`'s cell, trimmed. */
  lemma {:induction false} TrimsAt(column: seq<string>, i: nat)
    requires i < |column|
    ensures Trims(column)[i] == Trim(column[i])
  {
    var n := |column| - 1;
    if i < n {
      TrimsAt(column[..n], i);
    }
  }

  lemma TrimsExtend(column: seq<string>, i: nat)
    requires i < |column|
    ensures Trims(column[..i + 1]) == Trims(column[..i]) + [Trim(column[i])]
  {
    assert column[..i + 1][..i] == column[..i];
  }

  predicate NoDuplicates(s: seq<string>) {
    forall i, j :: 0 <= i < j < |s| ==> s[i] != s[j]
  }

  /** The elements of `s` in order of first appearance: the key order of a
      Python dict built by assigning `s[0]`, `s[1]`, ... in turn, since
      assigning an existing key keeps its place. */
  function Distinct(s: seq<string>): (r: seq<string>)
    ensures forall x :: x in r <==> x in s
    ensures NoDuplicates(r)
    ensures |r| <= |s|
  {
    if s == [] then []
    else
      var d := Distinct(s[..|s| - 1]);
      var x := s[|s| - 1];
      assert s == s[..|s| - 1] + [x];
      if x in d then d else d + [x]
  }

  /** The table with every one of `cells` as a key and no answers yet. */
  function Fresh(cells: seq<string>): Table {
    map w | w in cells :: NoAnswers
  }

  /** Assigning one more cell to the dict: a new key goes to the end of
      the key order, a key already present keeps its place. */
  lemma Extend(cells: seq<string>, x: string)
    ensures Fresh(cells + [x]) == Fresh(cells)[x := NoAnswers]
    ensures Distinct(cells + [x]) == if x in cells then Distinct(cells) else Distinct(cells) + [x]
  {
    assert (cells + [x])[..|cells|] == cells;
  }

  /** load_words: one entry per distinct trimmed first-column cell, both
      counters 0 (see LoadedTable); `order` is the key order of the dict
      it builds. */
  method LoadWords(column: seq<string>) returns (words: Table, order: seq<string>)
    ensures words == Fresh(Trims(column))
    ensures order == Distinct(Trims(column))
  {
    words, order := map[], [];
    var i := 0;
    while i < |column|
      invariant 0 <= i <= |column|
      invariant words == Fresh(Trims(column[..i]))
      invariant order == Distinct(Trims(column[..i]))
    {
      var word := Trim(column[i]);
      TrimsExtend(column, i);
      Extend(Trims(column[..i]), word);
      if word !in words {
        order := order + [word];
      }
      words := words[word := NoAnswers];
      i := i + 1;
    }
    assert column[..i] == column;
  }

  /** The table load_words builds has exactly the trimmed cells as keys,
      a cell repeated (up to surrounding whitespace) giving one key, and
      no answers recorded for any of them. */
  lemma LoadedTable(column: seq<string>)
    ensures forall i :: 0 <= i < |column| ==> Trim(column[i]) in Fresh(Trims(column))
    ensures forall w :: w in Fresh(Trims(column)) ==> exists i :: 0 <= i < |column| && Trim(column[i]) == w
    ensures forall w :: w in Fresh(Trims(column)) ==> Fresh(Trims(column))[w] == NoAnswers
    ensures |Fresh(Trims(column))| <= |column|
  {
    var cells := Trims(column);
    forall i | 0 <= i < |column|
      ensures Trim(column[i]) in Fresh(cells)
    {
      TrimsAt(column, i);
    }
    forall w | w in Fresh(cells)
      ensures exists i :: 0 <= i < |column| && Trim(column[i]) == w
    {
      var i :| 0 <= i < |cells| && cells[i] == w;
      TrimsAt(column, i);
    }
    DistinctCovers(cells);
  }

  /** `order` lists the keys of `words`, each once: it can stand for
      `list(words.keys())`. */
  ghost predicate KeyOrder(words: Table, order: seq<string>) {
    && (forall k :: 0 <= k < |order| ==> order[k] in words)
    && (forall w :: w in words ==> w in order)
    && NoDuplicates(order)
  }

  /** The fresh table's keys, in order of first appearance, without
      repetition: the dict's key order agrees with its keys. */
  lemma DistinctCovers(cells: seq<string>)
    ensures KeyOrder(Fresh(cells), Distinct(cells))
    ensures |Fresh(cells)| == |Distinct(cells)| <= |cells|
    ensures cells != [] ==> Distinct(cells) != []
  {
    var d := Distinct(cells);
    assert Fresh(cells).Keys == set k | 0 <= k < |d| :: d[k];
    DistinctCard(d);
    if cells != [] {
      assert cells[0] in d;
    }
  }

  /** The table load_words returns and its key order agree, and the
      order is empty exactly when the word list has no rows. */
  lemma LoadedKeyOrder(column: seq<string>)
    ensures KeyOrder(Fresh(Trims(column)), Distinct(Trims(column)))
    ensures Distinct(Trims(column)) == [] <==> column == []
  {
    DistinctCovers(Trims(column));
  }

  /** A sequence without repetition has as many distinct elements as it
      is long. */
  lemma {:induction false} DistinctCard(s: seq<string>)
    requires NoDuplicates(s)
    ensures |set k | 0 <= k < |s| :: s[k]| == |s|
  {
    if s != [] {
      var t := s[..|s| - 1];
      DistinctCard(t);
      assert (set k | 0 <= k < |s| :: s[k]) == (set k | 0 <= k < |t| :: t[k]) + {s[|s| - 1]};
    }
  }

  /** load_progress's merge rule: a word of the table that the stored
      progress knows takes the stored counters, any other word of the
      table keeps its own, and stored words the table lacks are dropped. */
  function Merge(words: Table, stored: Table): (r: Table)
    ensures r.Keys == words.Keys
  {
    map w | w in words :: if w in stored then stored[w] else words[w]
  }

  /** The merge rule, stated entry by entry. */
  lemma MergeRule(words: Table, stored: Table)
    ensures Merge(words, stored).Keys == words.Keys
    ensures forall w :: w in words && w in stored ==> Merge(words, stored)[w] == stored[w]
    ensures forall w :: w in words && w !in stored ==> Merge(words, stored)[w] == words[w]
    ensures forall w :: w in stored && w !in words ==> w !in Merge(words, stored)
  {
  }

  /** load_progress as a whole: with no progress file (None) the table
      stays as it is, otherwise the file is merged in. */
  function Restore(words: Table, stored: Option<Table>): (r: Table)
    ensures r.Keys == words.Keys
    ensures stored.None? ==> r == words
  {
    if stored.Some? then Merge(words, stored.value) else words
  }

  /** The table a session starts from: exactly the trimmed first-column
      cells, each with the stored counters when the progress file has
      them and with no answers otherwise. */
  lemma StartingTable(column: seq<string>, stored: Option<Table>)
    ensures forall w :: w in Restore(Fresh(Trims(column)), stored) <==> w in Trims(column)
    ensures forall w :: w in Trims(column) ==>
      Restore(Fresh(Trims(column)), stored)[w]
      == if stored.Some? && w in stored.value then stored.value[w] else NoAnswers
  {
  }

  /** Saving the table and loading it back into a table with the same
      words restores it exactly, whatever that table's counters were. */
  lemma SaveThenLoad(loaded: Table, saved: Table)
    requires loaded.Keys == saved.Keys
    ensures Merge(loaded, saved) == saved
  {
  }

  /** Merging the same progress a second time changes nothing. */
  lemma MergeIdempotent(words: Table, stored: Table)
    ensures Merge(Merge(words, stored), stored) == Merge(words, stored)
  {
  }

  /** The counters only went up and no word came or went: the invariant
      recording an answer keeps. */
  ghost predicate Grew(before: Table, after: Table) {
    && before.Keys == after.Keys
    && forall w :: w in before ==> before[w].right <= after[w].right && before[w].wrong <= after[w].wrong
  }

  /** got_it_right's update of the current word. */
  function RecordRight(words: Table, w: string): (r: Table)
    requires w in words
    ensures Grew(words, r)
    ensures r[w].right == words[w].right + 1 && r[w].wrong == words[w].wrong
    ensures forall k :: k in words && k != w ==> r[k] == words[k]
  {
    words[w := Counts(words[w].right + 1, words[w].wrong)]
  }

  /** got_it_wrong's update of the current word. */
  function RecordWrong(words: Table, w: string): (r: Table)
    requires w in words
    ensures Grew(words, r)
    ensures r[w].wrong == words[w].wrong + 1 && r[w].right == words[w].right
    ensures forall k :: k in words && k != w ==> r[k] == words[k]
  {
    words[w := Counts(words[w].right, words[w].wrong + 1)]
  }
}
