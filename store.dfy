/** The page's mutable state: the in-memory quote collection, its durable copy
    under the storage key "quotes", the stored category selection and the sync
    status line, with the operations that read and change them. */
module Store {
  import opened Strings
  import opened Quotes

  /** What reading the chosen import file yields: text that is not JSON, a
      JSON value that is not an array, or an array of records. */
  datatype ImportInput = Unparsable | NotArray | Array(items: seq<Quote>)

  /** How an import ends: the two messages of the failure alert, or success. */
  datatype ImportOutcome = Imported | ParseFailed | InvalidFormat

  /** What the remote fetch yields: a failure (a rejected fetch, a body that
      is not JSON or not an array, or an array holding null), or the list of
      posts. */
  datatype FetchResult = FetchFailed | Posts(posts: seq<Post>)

  /** The sync status line: untouched, "Syncing with server...", "Sync
      complete. Server quotes synced." or "Error syncing with server.". */
  datatype SyncStatus = NotSynced | Syncing | SyncComplete | SyncError

  /** A quote as addQuote builds it: both fields trimmed and non-empty. */
  predicate WellFormed(q: Quote) {
    q.text != [] && q.category != [] && Trim(q.text) == q.text && Trim(q.category) == q.category
  }

  /** The quote addQuote builds from input that passes its check is well-formed. */
  lemma TrimmedWellFormed(text: string, category: string)
    requires Trim(text) != [] && Trim(category) != []
    ensures WellFormed(Quote(Trim(text), Trim(category)))
  {
    TrimIdempotent(text);
    TrimIdempotent(category);
  }

  /** A quote with no whitespace at either end of either field is well-formed. */
  lemma UntrimmableWellFormed(q: Quote)
    requires q.text != [] && !IsWhitespace(q.text[0]) && !IsWhitespace(q.text[|q.text| - 1])
    requires q.category != [] && !IsWhitespace(q.category[0]) && !IsWhitespace(q.category[|q.category| - 1])
    ensures WellFormed(q)
  {
    TrimNoop(q.text);
    TrimNoop(q.category);
  }

  /** The seed quotes are four well-formed quotes. */
  lemma DefaultsWellFormed()
    ensures |DefaultQuotes| == 4
    ensures forall i :: 0 <= i < |DefaultQuotes| ==> WellFormed(DefaultQuotes[i])
  {
    forall i | 0 <= i < |DefaultQuotes| ensures WellFormed(DefaultQuotes[i]) {
      SeedEnds(i);
      UntrimmableWellFormed(DefaultQuotes[i]);
    }
  }

  /** The first and last characters of each seed quote's fields. */
  lemma SeedEnds(i: nat)
    requires i < |DefaultQuotes|
    ensures var q := DefaultQuotes[i];
      && q.text != [] && q.text[0] in "TSL" && q.text[|q.text| - 1] == '.'
      && q.category != [] && q.category[0] in "MTDL" && q.category[|q.category| - 1] in "nye"
  {
    if i == 0 {
      var t := DefaultQuotes[0].text;
      var a, b := "The only way to do great w", "ork is to love what you do.";
      assert t == a + b;
      assert t[0] == a[0] == 'T';
    } else if i == 3 {
      var t := DefaultQuotes[3].text;
      assert t == "Life is what happens when you" + MisencodedApostrophe + "re busy making other plans.";
      assert t[0] == 'L';
    }
  }

  /** The seed quotes are in four distinct categories. */
  lemma DefaultCategories()
    ensures DistinctCategories(DefaultQuotes) == ["Motivation", "Technology", "Design", "Life"]
  {
    var cs := Categories(DefaultQuotes);
    assert cs == ["Motivation", "Technology", "Design", "Life"];
    DistinctNoDuplicates(cs);
  }

  class QuoteStore {
    /** The in-memory collection. */
    var quotes: seq<Quote>
    /** localStorage "quotes": None when the slot is empty. */
    var stored: Option<seq<Quote>>
    /** localStorage "selectedCategory". */
    var selectedCategory: Option<string>
    var syncStatus: SyncStatus

    /** The durable copy holds exactly the in-memory collection. */
    predicate Saved()
      reads this
    {
      stored == Some(quotes)
    }

    /** The page before start-up: an empty collection over the given storage. */
    constructor (storage: Option<seq<Quote>>, savedFilter: Option<string>)
      ensures quotes == [] && stored == storage
      ensures selectedCategory == savedFilter && syncStatus == NotSynced
    {
      quotes := [];
      stored := storage;
      selectedCategory := savedFilter;
      syncStatus := NotSynced;
    }

    /** An empty slot gives a copy of the seed quotes, otherwise the stored
        collection. Saving right after a load of a stored collection rewrites
        the same value. */
    method LoadQuotes()
      modifies this`quotes
      ensures stored.None? ==> quotes == DefaultQuotes
      ensures stored.Some? ==> quotes == stored.value && Saved()
    {
      quotes := if stored.Some? then stored.value else DefaultQuotes;
    }

    method SaveQuotes()
      modifies this`stored
      ensures stored == Some(quotes)
    {
      stored := Some(quotes);
    }

    /** Rejects the quote when its text or category is empty after trimming,
        leaving everything as it was; otherwise appends the trimmed quote and
        saves. An accepted quote is well-formed. */
    method AddQuote(text: string, category: string) returns (accepted: bool)
      modifies this`quotes, this`stored
      ensures accepted <==> Trim(text) != [] && Trim(category) != []
      ensures !accepted ==> quotes == old(quotes) && stored == old(stored)
      ensures accepted ==> |quotes| == |old(quotes)| + 1
      ensures accepted ==> quotes[..|old(quotes)|] == old(quotes)
      ensures accepted ==> quotes[|quotes| - 1] == Quote(Trim(text), Trim(category))
      ensures accepted ==> WellFormed(quotes[|quotes| - 1]) && Saved()
    {
      var t, c := Trim(text), Trim(category);
      if t == [] || c == [] {
        return false;
      }
      TrimmedWellFormed(text, category);
      quotes := quotes + [Quote(t, c)];
      SaveQuotes();
      accepted := true;
    }

    /** An array is appended verbatim, without validation or de-duplication,
        and saved; anything else fails and changes nothing. */
    method ImportFromJsonFile(input: ImportInput) returns (outcome: ImportOutcome)
      modifies this`quotes, this`stored
      ensures outcome == (match input
                          case Unparsable => ParseFailed
                          case NotArray => InvalidFormat
                          case Array(_) => Imported)
      ensures input.Array? ==> quotes == old(quotes) + input.items && Saved()
      ensures !input.Array? ==> quotes == old(quotes) && stored == old(stored)
    {
      match input
      case Unparsable =>
        outcome := ParseFailed;
      case NotArray =>
        outcome := InvalidFormat;
      case Array(items) =>
        quotes := quotes + items;
        SaveQuotes();
        outcome := Imported;
    }

    /** On success the collection becomes the server quotes followed by the
        local quotes whose text the server lacks, and is saved; on failure the
        collection and its durable copy are as before. */
    method SyncQuotes(response: FetchResult)
      modifies this`quotes, this`stored, this`syncStatus
      ensures response.FetchFailed? ==> quotes == old(quotes) && stored == old(stored) && syncStatus == SyncError
      ensures response.Posts? ==> quotes == Merge(FromPosts(response.posts), old(quotes))
      ensures response.Posts? ==> Saved() && syncStatus == SyncComplete
    {
      syncStatus := Syncing;
      match response
      case FetchFailed =>
        syncStatus := SyncError;
      case Posts(posts) =>
        var serverQuotes := FromPosts(posts);
        var newLocal := KeepLocal(quotes, Texts(serverQuotes));
        quotes := serverQuotes + newLocal;
        SaveQuotes();
        syncStatus := SyncComplete;
    }

    /** The values of the category selector: "all", then each category once in
        order of first appearance. */
    method PopulateCategories() returns (options: seq<string>)
      ensures |options| > 0 && options[0] == AllCategories && options[1..] == DistinctCategories(quotes)
    {
      options := [AllCategories] + DistinctCategories(quotes);
    }

    /** Stores the selection and shows a random quote from the selected
        category, or from all quotes for "all"; none when there is nothing to
        show. */
    method FilterQuotes(selected: string, u: real) returns (shown: Option<Quote>)
      requires 0.0 <= u < 1.0
      modifies this`selectedCategory
      ensures selectedCategory == Some(selected)
      ensures shown == Pick(FilterByCategory(quotes, selected), u)
      ensures shown.Some? ==> shown.value in quotes
      ensures shown.Some? && selected != AllCategories ==> shown.value.category == selected
    {
      selectedCategory := Some(selected);
      var filtered := FilterByCategory(quotes, selected);
      shown := Pick(filtered, u);
    }

    /** A random quote of the collection for a draw `u`; none when it is empty. */
    method ShowRandomQuote(u: real) returns (shown: Option<Quote>)
      requires 0.0 <= u < 1.0
      ensures shown == Pick(quotes, u)
    {
      shown := Pick(quotes, u);
    }
  }

  /** A client example: loading from an empty slot gives the four seed quotes. */
  method LoadScenario()
  {
    var s := new QuoteStore(None, None);
    s.LoadQuotes();
    assert |s.quotes| == 4 && s.quotes[1].text == "Talk is cheap. Show me the code.";
  }

  /** A client example: a sync over a stored collection replaces only the
      colliding local quote, and saves the result. */
  method SyncScenario()
  {
    var local := [Quote("A", "X"), Quote("B", "Y")];
    var posts := [Post("A"), Post("C")];
    var t := new QuoteStore(Some(local), None);
    t.LoadQuotes();
    assert t.quotes == local;
    t.SyncQuotes(Posts(posts));
    var server := FromPosts(posts);
    assert t.quotes == Merge(server, local);
    ExamplePosts();
    assert server == [Quote("A", "Server"), Quote("C", "Server")];
    SyncExample();
    assert t.quotes == [Quote("A", "Server"), Quote("C", "Server"), Quote("B", "Y")];
  }
}
