/** The state of the flashcard window: the word table, the card shown,
    the one browser tab opened to look a sign up, and the progress file,
    with the operations the buttons trigger. The widgets and the browser
    driver are left out; what they show or open is kept as values. */
module FlashCards {
  import opened Wrappers
  import opened Vocabulary
  import opened Selection

  /** A browser window handle. */
  type Handle = string

  datatype Side = Front | Back
  datatype Ink = Black | White

  /** What the canvas shows: the card image, the title, the word line
      and the colour both texts are drawn in. */
  datatype Card = Card(side: Side, title: string, ink: Ink, text: string)

  /** The front of the card for `word`, as next_card draws it. */
  function FrontOf(word: string): Card {
    Card(Front, "ASL", Black, word)
  }

  /** The back of the card, as flip_card draws it. */
  const Flipped := Card(Back, "ASL Sign", White, "")

  /** The search query for a sign: the word followed by " in ASL". */
  function SearchQuery(word: string): string {
    word + " in ASL"
  }

  const SearchPrefix := "https://www.google.com/search?q="

  /** The page the lookup tab is sent to. The query is not URL-encoded. */
  function SearchUrl(word: string): (url: string)
    ensures |url| == |SearchPrefix| + |word| + 7
  {
    SearchPrefix + SearchQuery(word)
  }

  /** The URL names the word it was made for: the word is what lies
      between the search prefix and the " in ASL" suffix. */
  lemma SearchUrlNamesWord(word: string)
    ensures SearchUrl(word)[..|SearchPrefix|] == SearchPrefix
    ensures SearchUrl(word)[|SearchPrefix|..|SearchPrefix| + |word|] == word
    ensures SearchUrl(word)[|SearchPrefix| + |word|..] == " in ASL"
  {
    var url := SearchUrl(word);
    assert url == SearchPrefix + (word + " in ASL");
  }

  /** Different words are looked up at different URLs. */
  lemma SearchUrlInjective(a: string, b: string)
    requires SearchUrl(a) == SearchUrl(b)
    ensures a == b
  {
    SearchUrlNamesWord(a);
    SearchUrlNamesWord(b);
  }

  datatype AppError =
    /** random.choices over an empty word list raises in the first next_card. */
    EmptyVocabulary

  class FlashCardApp {
    /** `self.words`, and its key order as `list(self.words.keys())` gives it. */
    var words: Table
    var order: seq<string>
    /** `self.current_word`: once construction succeeds it is always a word of the table. */
    var currentWord: string
    /** `self.lookup_tab`. */
    var lookupTab: Option<Handle>
    var card: Card
    /** The contents of the progress file; None while there is no file. */
    var progressFile: Option<Table>
    /** The lookup tabs this app has opened in the browser and not closed. */
    ghost var openTabs: set<Handle>

    /** The table and its key order agree, and every tab the app opened
        and has not closed is the one `lookupTab` names. */
    ghost predicate Consistent()
      reads this
    {
      && KeyOrder(words, order)
      && openTabs == (if lookupTab.Some? then {lookupTab.value} else {})
    }

    /** The table and key order are those of a session started from the
        word list `column` and the progress file `stored`. */
    ghost predicate LoadedFrom(column: seq<string>, stored: Option<Table>)
      reads this`words, this`order
    {
      words == Restore(Fresh(Trims(column)), stored) && order == Distinct(Trims(column))
    }

    ghost predicate Valid()
      reads this
    {
      Consistent() && currentWord in words
    }

    /** The part of __init__ that builds the state: load the words and
        merge the progress file. No card is drawn yet; Launch draws the
        first one. */
    constructor (column: seq<string>, stored: Option<Table>)
      ensures Consistent()
      ensures LoadedFrom(column, progressFile)
      ensures order == [] <==> column == []
      ensures progressFile == stored
      ensures lookupTab == None && openTabs == {}
      ensures card == FrontOf("")
    {
      words, order := map[], [];
      progressFile := stored;
      lookupTab := None;
      openTabs := {};
      card := FrontOf("");
      currentWord := "";
      new;
      Load(column);
    }

    /** `self.words = self.load_words()` followed by `self.load_progress()`. */
    method Load(column: seq<string>)
      requires openTabs == (if lookupTab.Some? then {lookupTab.value} else {})
      modifies this`words, this`order
      ensures Consistent()
      ensures LoadedFrom(column, progressFile)
      ensures order == [] <==> column == []
    {
      var table, keys := LoadWords(column);
      LoadedKeyOrder(column);
      words, order := table, keys;
      LoadProgress();
      assert words == Restore(table, progressFile);
    }

    /** load_progress: merge the stored counters of the words the table
        already has; a missing file changes nothing. */
    method LoadProgress()
      requires Consistent()
      modifies this`words
      ensures Consistent() && words.Keys == old(words).Keys
      ensures words == Restore(old(words), progressFile)
    {
      if progressFile.Some? {
        var stored := progressFile.value;
        var pending := stored.Keys;
        while pending != {}
          invariant pending <= stored.Keys
          invariant words.Keys == old(words).Keys
          invariant forall w :: w in words ==> words[w] == if w in stored && w !in pending then stored[w] else old(words)[w]
          decreases pending
        {
          var w :| w in pending;
          if w in words {
            words := words[w := stored[w]];
          }
          pending := pending - {w};
        }
      }
    }

    /** save_progress: the file now holds the whole table. */
    method SaveProgress()
      modifies this`progressFile
      ensures progressFile == Some(words)
    {
      progressFile := Some(words);
    }

    /** close_lookup_tab_if_exists: afterwards no lookup tab is open; when
        none was open nothing changes, so a second call is a no-op. */
    method CloseLookupTabIfExists()
      requires Consistent()
      modifies this`lookupTab, this`openTabs
      ensures Consistent()
      ensures lookupTab == None && openTabs == {}
      ensures old(lookupTab) == None ==> unchanged(this)
    {
      if lookupTab.Some? {
        openTabs := openTabs - {lookupTab.value};
        lookupTab := None;
      }
    }

    /** next_card: pick a word by weight and show the front of its card.
        No counter changes. */
    method NextCard(u: real)
      requires Consistent() && order != [] && 0.0 <= u < 1.0
      modifies this`currentWord, this`card
      ensures Valid()
      ensures currentWord == order[Choose(Weights(words, order), u)]
      ensures card == FrontOf(currentWord)
    {
      var weights := Weights(words, order);
      var k := Choose(weights, u);
      currentWord := order[k];
      card := FrontOf(currentWord);
    }

    /** flip_card: show the back of the card. */
    method FlipCard()
      modifies this`card
      ensures card == Flipped
    {
      card := Flipped;
    }

    /** Opens a lookup tab for the current word; `tab` is the handle the
        browser gives the new window. */
    method OpenLookupTab(tab: Handle) returns (url: string)
      requires Valid() && lookupTab == None
      modifies this`lookupTab, this`openTabs
      ensures Valid()
      ensures lookupTab == Some(tab) && openTabs == {tab}
      ensures url == SearchUrl(currentWord)
    {
      url := SearchUrl(currentWord);
      lookupTab := Some(tab);
      openTabs := openTabs + {tab};
    }

    /** show_sign: close the previous lookup tab, flip the card and open a
        search for the current word in a new tab `tab`. */
    method ShowSign(tab: Handle) returns (url: string)
      requires Valid()
      modifies this`lookupTab, this`openTabs, this`card
      ensures Valid()
      ensures card == Flipped
      ensures lookupTab == Some(tab) && openTabs == {tab}
      ensures url == SearchUrl(currentWord)
    {
      CloseLookupTabIfExists();
      FlipCard();
      url := OpenLookupTab(tab);
    }

    /** got_it_right: close the lookup tab, count a right answer for the
        current word, save, and draw the next card with `u`. */
    method GotItRight(u: real)
      requires Valid() && 0.0 <= u < 1.0
      modifies this`words, this`progressFile, this`lookupTab, this`openTabs, this`currentWord, this`card
      ensures Valid()
      ensures words == RecordRight(old(words), old(currentWord))
      ensures progressFile == Some(words)
      ensures lookupTab == None && openTabs == {}
      ensures currentWord == order[Choose(Weights(words, order), u)]
      ensures card == FrontOf(currentWord)
    {
      CloseLookupTabIfExists();
      words := RecordRight(words, currentWord);
      SaveProgress();
      NextCard(u);
    }

    /** got_it_wrong: close the lookup tab, count a wrong answer for the
        current word, save, open a search for that word in a new tab
        `tab`, and draw the next card with `u`; the tab stays open. */
    method GotItWrong(tab: Handle, u: real) returns (url: string)
      requires Valid() && 0.0 <= u < 1.0
      modifies this`words, this`progressFile, this`lookupTab, this`openTabs, this`currentWord, this`card
      ensures Valid()
      ensures words == RecordWrong(old(words), old(currentWord))
      ensures progressFile == Some(words)
      ensures url == SearchUrl(old(currentWord))
      ensures lookupTab == Some(tab) && openTabs == {tab}
      ensures currentWord == order[Choose(Weights(words, order), u)]
      ensures card == FrontOf(currentWord)
    {
      CloseLookupTabIfExists();
      words := RecordWrong(words, currentWord);
      SaveProgress();
      url := OpenLookupTab(tab);
      NextCard(u);
    }

    /** on_close: save the table and close the lookup tab. */
    method OnClose()
      requires Valid()
      modifies this`progressFile, this`lookupTab, this`openTabs
      ensures Valid()
      ensures progressFile == Some(words)
      ensures lookupTab == None && openTabs == {}
    {
      SaveProgress();
      CloseLookupTabIfExists();
    }
  }

  /** `FlashCardApp(root, csv_file)`: build the state and draw the first
      card with `u` as the value of `random()`; with no rows in the word
      list that first draw raises and there is no app. */
  method Launch(column: seq<string>, stored: Option<Table>, u: real) returns (r: Result<FlashCardApp, AppError>)
    requires 0.0 <= u < 1.0
    ensures r.Failure? <==> column == []
    ensures r.Success? ==> var app := r.value;
      && fresh(app) && app.Valid()
      && app.LoadedFrom(column, stored)
      && app.progressFile == stored
      && app.lookupTab == None && app.openTabs == {}
      && app.currentWord == app.order[Choose(Weights(app.words, app.order), u)]
      && app.card == FrontOf(app.currentWord)
  {
    var app := new FlashCardApp(column, stored);
    if app.order == [] {
      r := Failure(EmptyVocabulary);
    } else {
      app.NextCard(u);
      r := Success(app);
    }
  }
}
