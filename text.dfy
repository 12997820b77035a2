/** The whitespace trimming that `str(row[0]).strip()` applies to every
    first-column cell before it becomes a key of the word table. */
module Text {

  /** The ASCII characters for which Python's str.isspace() holds:
      space, tab, line feed, vertical tab, form feed, carriage return
      and the four separators 0x1C to 0x1F. */
  predicate IsSpace(c: char) {
    c == ' ' || (9 <= c as int <= 13) || (28 <= c as int <= 31)
  }

  /** The same ten characters, listed one by one. */
  const SpaceChars: seq<char> :=
    [' ', 9 as char, 10 as char, 11 as char, 12 as char, 13 as char,
     28 as char, 29 as char, 30 as char, 31 as char]

  /** IsSpace holds for exactly the ten listed characters. */
  lemma SpaceCharsListed(c: char)
    ensures IsSpace(c) <==> c in SpaceChars
  {
  }

  /** Scanning forward from `i`: the index of the first character that is
      not whitespace, or |s| when there is none. */
  function SkipForward(s: string, i: nat): (j: nat)
    requires i <= |s|
    ensures i <= j <= |s|
    ensures forall k :: i <= k < j ==> IsSpace(s[k])
    ensures j == |s| || !IsSpace(s[j])
    decreases |s| - i
  {
    if i == |s| || !IsSpace(s[i]) then i else SkipForward(s, i + 1)
  }

  /** Scanning backward from `j` down to `lo`: the index just past the last
      character before `j` that is not whitespace, or `lo` when there is none. */
  function SkipBackward(s: string, lo: nat, j: nat): (i: nat)
    requires lo <= j <= |s|
    ensures lo <= i <= j
    ensures forall k :: i <= k < j ==> IsSpace(s[k])
    ensures i == lo || !IsSpace(s[i - 1])
    decreases j
  {
    if j == lo || !IsSpace(s[j - 1]) then j else SkipBackward(s, lo, j - 1)
  }

  /** Python's `strip()` with no argument, on ASCII whitespace: cut the
      leading whitespace, then the trailing whitespace. */
  function Trim(s: string): (r: string)
    ensures |r| <= |s|
    ensures r == [] || (!IsSpace(r[0]) && !IsSpace(r[|r| - 1]))
  {
    var a := SkipForward(s, 0);
    var b := SkipBackward(s, a, |s|);
    s[a..b]
  }

  /** `r` is what is left of `s` after cutting whitespace off both ends,
      `r` starting at index `i` of `s`, with nothing but whitespace
      before and after it and no whitespace at its own ends. */
  ghost predicate Stripped(s: string, r: string, i: nat) {
    && i + |r| <= |s|
    && r == s[i..i + |r|]
    && (forall k :: 0 <= k < i ==> IsSpace(s[k]))
    && (forall k :: i + |r| <= k < |s| ==> IsSpace(s[k]))
    && (r == [] || (!IsSpace(r[0]) && !IsSpace(r[|r| - 1])))
  }

  /** Trim cuts exactly the surrounding whitespace. */
  lemma TrimIsStripped(s: string)
    ensures Stripped(s, Trim(s), SkipForward(s, 0))
  {
  }

  /** The forward scan stops at the first character that is not
      whitespace, wherever that is. */
  lemma {:induction false} SkipForwardAt(s: string, i: nat, j: nat)
    requires i <= j <= |s|
    requires forall k :: i <= k < j ==> IsSpace(s[k])
    requires j == |s| || !IsSpace(s[j])
    ensures SkipForward(s, i) == j
    decreases j - i
  {
    if i < j {
      SkipForwardAt(s, i + 1, j);
    }
  }

  /** The backward scan stops just past the last character that is not
      whitespace, wherever that is. */
  lemma {:induction false} SkipBackwardAt(s: string, lo: nat, i: nat, j: nat)
    requires lo <= i <= j <= |s|
    requires forall k :: i <= k < j ==> IsSpace(s[k])
    requires i == lo || !IsSpace(s[i - 1])
    ensures SkipBackward(s, lo, j) == i
    decreases j - i
  {
    if i < j {
      SkipBackwardAt(s, lo, i, j - 1);
    }
  }

  /** Any way of cutting surrounding whitespace off `s` that leaves no
      whitespace at the ends gives Trim(s): stripping is unique. */
  lemma TrimUnique(s: string, r: string, i: nat)
    requires Stripped(s, r, i)
    ensures r == Trim(s)
  {
    if r == [] {
      SkipForwardAt(s, 0, |s|);
      SkipBackwardAt(s, |s|, |s|, |s|);
    } else {
      assert s[i] == r[0];
      SkipForwardAt(s, 0, i);
      assert s[i + |r| - 1] == r[|r| - 1];
      SkipBackwardAt(s, i, i + |r|, |s|);
    }
  }

  /** Trimming twice is trimming once. */
  lemma TrimIdempotent(s: string)
    ensures Trim(Trim(s)) == Trim(s)
  {
    var r := Trim(s);
    assert r[0..0 + |r|] == r;
    TrimUnique(r, r, 0);
  }
}
