/** The quote records of the widget and the pure computations over them: the
    seed collection, the server snapshot mapping, the server reconciliation
    merge, the distinct category list and the category filter. */
module Quotes {

  datatype Option<+T> = None | Some(value: T)

  /** A quote: its text and its category. Two quotes are "the same quote" for
      the server merge when their texts are equal, whatever their categories. */
  datatype Quote = Quote(text: string, category: string)

  /** The four seed quotes used when nothing is stored. The fourth text holds the
      three characters U+00E2 U+20AC U+2122 where an apostrophe was meant, as the
      script's literal has them. */
  const DefaultQuotes: seq<Quote> := [
    Quote("The only way to do great work is to love what you do.", "Motivation"),
    Quote("Talk is cheap. Show me the code.", "Technology"),
    Quote("Simplicity is the ultimate sophistication.", "Design"),
    Quote("Life is what happens when you" + MisencodedApostrophe + "re busy making other plans.", "Life")
  ]

  /** U+2019 (right single quotation mark) encoded in UTF-8 and read back as
      Windows-1252: the three characters the script's literal has in place of it. */
  const MisencodedApostrophe: string := ['\U{E2}', '\U{20AC}', '\U{2122}']

  /** Subsequence: `a` is `b` with some elements dropped, the rest in order. */
  ghost predicate IsSubsequence<T>(a: seq<T>, b: seq<T>)
    decreases |b|
  {
    if a == [] then true
    else if b == [] then false
    else if a[0] == b[0] then IsSubsequence(a[1..], b[1..])
    else IsSubsequence(a, b[1..])
  }

  // ---------------------------------------------------------------------------
  // Server snapshot

  /** A post of the remote endpoint; only its title is read. */
  datatype Post = Post(title: string)

  const ServerCategory := "Server"

  /** Each post becomes a quote whose text is the post's title and whose
      category is "Server", in the order of the posts. */
  function FromPosts(posts: seq<Post>): (r: seq<Quote>)
    ensures |r| == |posts|
    ensures forall i :: 0 <= i < |r| ==> r[i].text == posts[i].title && r[i].category == ServerCategory
  {
    if posts == [] then [] else [Quote(posts[0].title, ServerCategory)] + FromPosts(posts[1..])
  }

  // ---------------------------------------------------------------------------
  // Server reconciliation

  /** The texts of a collection, position by position. */
  function Texts(qs: seq<Quote>): (r: seq<string>)
    ensures |r| == |qs|
    ensures forall i :: 0 <= i < |qs| ==> r[i] == qs[i].text
  {
    if qs == [] then [] else [qs[0].text] + Texts(qs[1..])
  }

  /** The local quotes whose text is none of `serverTexts`, in their order:
      a quote is kept exactly when its text matches no server text. */
  function KeepLocal(local: seq<Quote>, serverTexts: seq<string>): (r: seq<Quote>)
    ensures |r| <= |local|
    ensures forall q :: q in r <==> q in local && q.text !in serverTexts
    ensures forall q :: multiset(r)[q] == if q.text in serverTexts then 0 else multiset(local)[q]
  {
    if local == [] then []
    else
      assert local == [local[0]] + local[1..];
      (if local[0].text in serverTexts then [] else [local[0]]) + KeepLocal(local[1..], serverTexts)
  }

  /** The merged collection after a successful sync: the server snapshot first,
      then the local quotes whose text the server does not have. The server
      wins every text collision; categories play no part. */
  function Merge(server: seq<Quote>, local: seq<Quote>): (r: seq<Quote>)
    ensures |server| <= |r| <= |server| + |local|
    ensures r[..|server|] == server
    ensures forall i :: |server| <= i < |r| ==> r[i] in local && r[i].text !in Texts(server)
    ensures forall q :: q in r <==> q in server || (q in local && q.text !in Texts(server))
  {
    server + KeepLocal(local, Texts(server))
  }

  /** Filtering local quotes keeps their relative order. */
  lemma {:induction false} KeepLocalSubsequence(local: seq<Quote>, serverTexts: seq<string>)
    ensures IsSubsequence(KeepLocal(local, serverTexts), local)
  {
    if local != [] {
      KeepLocalSubsequence(local[1..], serverTexts);
      var rest := KeepLocal(local[1..], serverTexts);
      if local[0].text in serverTexts {
        assert KeepLocal(local, serverTexts) == rest;
        SubsequenceOfTail(rest, local);
      } else {
        assert KeepLocal(local, serverTexts) == [local[0]] + rest;
        assert ([local[0]] + rest)[1..] == rest;
      }
    }
  }

  /** A subsequence of the tail is a subsequence of the whole. */
  lemma {:induction false} SubsequenceOfTail<T>(a: seq<T>, b: seq<T>)
    requires b != [] && IsSubsequence(a, b[1..])
    ensures IsSubsequence(a, b)
    decreases |a| + |b|
  {
    if a != [] && a[0] == b[0] {
      SubsequenceDropHead(a, b[1..]);
    }
  }

  /** Dropping the first element of a subsequence leaves a subsequence. */
  lemma {:induction false} SubsequenceDropHead<T>(a: seq<T>, b: seq<T>)
    requires a != [] && IsSubsequence(a, b)
    ensures IsSubsequence(a[1..], b)
    decreases |a| + |b|
  {
    if a[0] == b[0] {
      if a[1..] != [] {
        SubsequenceOfTail(a[1..], b);
      }
    } else {
      SubsequenceDropHead(a, b[1..]);
      if a[1..] != [] {
        SubsequenceOfTail(a[1..], b);
      }
    }
  }

  /** Filtering distributes over concatenation, so the filter works element by
      element from left to right. */
  lemma {:induction false} KeepLocalAppend(a: seq<Quote>, b: seq<Quote>, serverTexts: seq<string>)
    ensures KeepLocal(a + b, serverTexts) == KeepLocal(a, serverTexts) + KeepLocal(b, serverTexts)
  {
    if a == [] {
      assert a + b == b;
    } else {
      assert (a + b)[0] == a[0];
      assert (a + b)[1..] == a[1..] + b;
      KeepLocalAppend(a[1..], b, serverTexts);
    }
  }

  /** A local quote survives the merge exactly when no server quote has its
      text, even when the server quote with that text has another category. */
  lemma {:induction false} LocalSurvivesIff(server: seq<Quote>, local: seq<Quote>, q: Quote)
    requires q in local
    ensures q in Merge(server, local)[|server|..] <==> forall s :: s in server ==> s.text != q.text
  {
    var r := Merge(server, local);
    assert r[|server|..] == KeepLocal(local, Texts(server));
    if q.text in Texts(server) {
      var i :| 0 <= i < |server| && Texts(server)[i] == q.text;
      assert server[i] in server;
    } else {
      forall s | s in server ensures s.text != q.text {
        var i :| 0 <= i < |server| && server[i] == s;
        assert Texts(server)[i] == s.text;
      }
    }
  }

  /** The surprising half of the policy: a local quote with a server text is
      dropped even when its category differs from the server quote's; it is
      then absent from the result unless the server has that very quote. */
  lemma CategoryIgnored(server: seq<Quote>, local: seq<Quote>, i: nat, j: nat)
    requires i < |server| && j < |local|
    requires server[i].text == local[j].text && server[i].category != local[j].category
    ensures local[j] !in Merge(server, local)[|server|..]
    ensures local[j] !in server ==> local[j] !in Merge(server, local)
  {
    assert Texts(server)[i] == local[j].text;
  }

  /** When no local text collides with a server text, every local quote is kept. */
  lemma {:induction false} KeepLocalAll(local: seq<Quote>, serverTexts: seq<string>)
    requires forall i :: 0 <= i < |local| ==> local[i].text !in serverTexts
    ensures KeepLocal(local, serverTexts) == local
  {
    if local != [] {
      KeepLocalAll(local[1..], serverTexts);
      assert local[0].text !in serverTexts;
      assert KeepLocal(local, serverTexts) == [local[0]] + KeepLocal(local[1..], serverTexts);
      assert [local[0]] + local[1..] == local;
    }
  }

  /** When every local text is a server text, nothing local is kept. */
  lemma {:induction false} KeepLocalNone(local: seq<Quote>, serverTexts: seq<string>)
    requires forall i :: 0 <= i < |local| ==> local[i].text in serverTexts
    ensures KeepLocal(local, serverTexts) == []
  {
    if local != [] {
      KeepLocalNone(local[1..], serverTexts);
      assert local[0].text in serverTexts;
      assert KeepLocal(local, serverTexts) == [] + KeepLocal(local[1..], serverTexts);
    }
  }

  /** Syncing twice against the same snapshot is the same as syncing once. */
  lemma MergeIdempotent(server: seq<Quote>, local: seq<Quote>)
    ensures Merge(server, Merge(server, local)) == Merge(server, local)
  {
    var t := Texts(server);
    var kept := KeepLocal(local, t);
    assert forall i :: 0 <= i < |server| ==> server[i].text in t by {
      forall i | 0 <= i < |server| ensures server[i].text in t {
        assert t[i] == server[i].text;
      }
    }
    KeepLocalNone(server, t);
    assert forall i :: 0 <= i < |kept| ==> kept[i].text !in t by {
      forall i | 0 <= i < |kept| ensures kept[i].text !in t {
        assert kept[i] in kept;
      }
    }
    KeepLocalAll(kept, t);
    KeepLocalAppend(server, kept, t);
    calc {
      Merge(server, Merge(server, local));
      server + KeepLocal(server + kept, t);
      server + (KeepLocal(server, t) + KeepLocal(kept, t));
      server + ([] + kept);
      { assert [] + kept == kept; }
      Merge(server, local);
    }
  }

  /** A merge never empties a non-empty collection: against an empty snapshot
      the local collection is kept as it is. */
  lemma MergeNonEmpty(server: seq<Quote>, local: seq<Quote>)
    ensures local != [] ==> Merge(server, local) != []
    ensures server == [] ==> Merge(server, local) == local
  {
    if server == [] {
      KeepLocalAll(local, Texts(server));
    }
  }

  /** Posts titled A and C become the server quotes A/Server and C/Server. */
  lemma ExamplePosts()
    ensures FromPosts([Post("A"), Post("C")]) == [Quote("A", "Server"), Quote("C", "Server")]
  {
    var r := FromPosts([Post("A"), Post("C")]);
    assert r[0] == Quote("A", "Server") && r[1] == Quote("C", "Server");
  }

  /** The worked example of the merge rule: local A/X and B/Y against server
      A/Server and C/Server give A/Server, C/Server, B/Y. */
  lemma SyncExample()
    ensures Merge([Quote("A", "Server"), Quote("C", "Server")], [Quote("A", "X"), Quote("B", "Y")])
         == [Quote("A", "Server"), Quote("C", "Server"), Quote("B", "Y")]
  {
    var server := [Quote("A", "Server"), Quote("C", "Server")];
    var local := [Quote("A", "X"), Quote("B", "Y")];
    assert Texts(server) == ["A", "C"];
    assert local[1..][1..] == [];
    assert KeepLocal(local[1..], ["A", "C"]) == [Quote("B", "Y")];
    assert KeepLocal(local, ["A", "C"]) == [Quote("B", "Y")];
  }

  // ---------------------------------------------------------------------------
  // Distinct categories

  /** The categories of a collection, position by position. */
  function Categories(qs: seq<Quote>): (r: seq<string>)
    ensures |r| == |qs|
    ensures forall i :: 0 <= i < |qs| ==> r[i] == qs[i].category
  {
    if qs == [] then [] else [qs[0].category] + Categories(qs[1..])
  }

  predicate NoDuplicates<T(==)>(xs: seq<T>) {
    forall i, j :: 0 <= i < j < |xs| ==> xs[i] != xs[j]
  }

  /** The position where `x` first occurs in `xs`. */
  function FirstIndex(xs: seq<string>, x: string): (k: nat)
    requires x in xs
    ensures k < |xs| && xs[k] == x && x !in xs[..k]
  {
    if xs[0] == x then 0
    else
      var k := 1 + FirstIndex(xs[1..], x);
      assert xs[..k] == [xs[0]] + xs[1..][..k - 1];
      k
  }

  /** The first occurrence of an element of a prefix lies in the prefix. */
  lemma FirstIndexInPrefix(xs: seq<string>, n: nat, x: string)
    requires n <= |xs| && x in xs[..n]
    ensures x in xs && FirstIndex(xs, x) == FirstIndex(xs[..n], x)
  {
    var k, k' := FirstIndex(xs, x), FirstIndex(xs[..n], x);
    assert xs[..n][k'] == xs[k'];
    assert xs[..n][..k'] == xs[..k'];
  }

  /** What `[...new Set(xs)]` gives: each distinct element once, in the order
      of its first occurrence in `xs`. */
  function Distinct(xs: seq<string>): (r: seq<string>)
    ensures NoDuplicates(r)
    ensures forall x :: x in r <==> x in xs
    ensures forall i, j :: 0 <= i < j < |r| ==> FirstIndex(xs, r[i]) < FirstIndex(xs, r[j])
  {
    if xs == [] then []
    else
      var init := xs[..|xs| - 1];
      var last := xs[|xs| - 1];
      var p := Distinct(init);
      assert xs == init + [last];
      forall x | x in p ensures FirstIndex(xs, x) == FirstIndex(init, x) {
        FirstIndexInPrefix(xs, |xs| - 1, x);
      }
      if last in p then p
      else
        assert FirstIndex(xs, last) == |xs| - 1;
        p + [last]
  }

  /** A list without duplicates is its own distinct list. */
  lemma {:induction false} DistinctNoDuplicates(xs: seq<string>)
    requires NoDuplicates(xs)
    ensures Distinct(xs) == xs
  {
    if xs != [] {
      var init := xs[..|xs| - 1];
      assert xs == init + [xs[|xs| - 1]];
      assert NoDuplicates(init);
      DistinctNoDuplicates(init);
      assert xs[|xs| - 1] !in init;
    }
  }

  /** The category list of populateCategories: every category of the
      collection once, in the order in which categories first appear. */
  function DistinctCategories(qs: seq<Quote>): (r: seq<string>)
    ensures NoDuplicates(r)
    ensures forall c :: c in r <==> c in Categories(qs)
    ensures forall c :: c in r <==> exists i :: 0 <= i < |qs| && qs[i].category == c
    ensures forall i, j :: 0 <= i < j < |r| ==> FirstIndex(Categories(qs), r[i]) < FirstIndex(Categories(qs), r[j])
  {
    var cs := Categories(qs);
    var r := Distinct(cs);
    assert forall c :: c in cs <==> exists i :: 0 <= i < |qs| && qs[i].category == c by {
      forall c | c in cs ensures exists i :: 0 <= i < |qs| && qs[i].category == c {
        var i :| 0 <= i < |cs| && cs[i] == c;
        assert qs[i].category == c;
      }
    }
    r
  }

  /** Three quotes in categories A, A, B give the two categories A, B. */
  lemma CategoriesExample()
    ensures DistinctCategories([Quote("x", "A"), Quote("y", "A"), Quote("z", "B")]) == ["A", "B"]
  {
    var qs := [Quote("x", "A"), Quote("y", "A"), Quote("z", "B")];
    assert Categories(qs) == ["A", "A", "B"];
    DistinctDropsRepeat();
  }

  /** The distinct list of A, A, B is A, B. */
  lemma DistinctDropsRepeat()
    ensures Distinct(["A", "A", "B"]) == ["A", "B"]
  {
    var cs: seq<string> := ["A", "A", "B"];
    assert cs[..2] == ["A", "A"];
    assert ["A", "A"][..1] == ["A"];
    assert ["A"][..0] == [];
    assert Distinct(["A"]) == ["A"];
    assert Distinct(["A", "A"]) == ["A"];
  }

  // ---------------------------------------------------------------------------
  // Category filter

  /** The option value meaning "All Categories". */
  const AllCategories := "all"

  /** The quotes whose category is `c`, in their order: every copy of a
      quote in that category is kept, and nothing else. */
  function InCategory(qs: seq<Quote>, c: string): (r: seq<Quote>)
    ensures |r| <= |qs|
    ensures forall q :: q in r <==> q in qs && q.category == c
    ensures forall q :: multiset(r)[q] == if q.category == c then multiset(qs)[q] else 0
  {
    if qs == [] then []
    else
      assert qs == [qs[0]] + qs[1..];
      (if qs[0].category == c then [qs[0]] else []) + InCategory(qs[1..], c)
  }

  /** The category filter distributes over concatenation. */
  lemma {:induction false} InCategoryAppend(a: seq<Quote>, b: seq<Quote>, c: string)
    ensures InCategory(a + b, c) == InCategory(a, c) + InCategory(b, c)
  {
    if a == [] {
      assert a + b == b;
    } else {
      assert (a + b)[0] == a[0];
      assert (a + b)[1..] == a[1..] + b;
      InCategoryAppend(a[1..], b, c);
    }
  }

  lemma {:induction false} InCategorySubsequence(qs: seq<Quote>, c: string)
    ensures IsSubsequence(InCategory(qs, c), qs)
  {
    if qs != [] {
      InCategorySubsequence(qs[1..], c);
      var rest := InCategory(qs[1..], c);
      if qs[0].category == c {
        assert InCategory(qs, c) == [qs[0]] + rest;
        assert ([qs[0]] + rest)[1..] == rest;
      } else {
        assert InCategory(qs, c) == rest;
        SubsequenceOfTail(rest, qs);
      }
    }
  }

  /** The quotes filterQuotes draws from: the whole collection for "all",
      otherwise the quotes in the selected category, in their order. */
  function FilterByCategory(qs: seq<Quote>, selected: string): (r: seq<Quote>)
    ensures selected == AllCategories ==> r == qs
    ensures selected != AllCategories ==> forall q :: q in r <==> q in qs && q.category == selected
    ensures selected != AllCategories ==>
      forall q :: multiset(r)[q] == if q.category == selected then multiset(qs)[q] else 0
  {
    if selected == AllCategories then qs else InCategory(qs, selected)
  }

  /** The category list and the filter agree: a listed category other than
      "all" always has a quote to show, an unlisted one never has. */
  lemma FilterNonEmptyIff(qs: seq<Quote>, c: string)
    requires c != AllCategories
    ensures FilterByCategory(qs, c) != [] <==> c in DistinctCategories(qs)
  {
    var r := FilterByCategory(qs, c);
    if c in DistinctCategories(qs) {
      var i :| 0 <= i < |qs| && qs[i].category == c;
      assert qs[i] in r;
    }
    if r != [] {
      assert r[0] in qs;
      var i :| 0 <= i < |qs| && qs[i] == r[0];
      assert qs[i].category == c;
    }
  }

  // ---------------------------------------------------------------------------
  // Random choice

  /** `Math.floor(u * n)` for `u` from `Math.random()`, read as a real. */
  function RandomIndex(u: real, n: nat): (k: nat)
    requires 0.0 <= u < 1.0 && n > 0
    ensures k < n
  {
    var x := u * n as real;
    assert 0.0 <= x < n as real by {
      assert u * n as real < 1.0 * n as real;
    }
    x.Floor
  }

  /** The quote shown for a draw `u`: a member of the collection, or none when
      the collection is empty (the source then indexes past the end). */
  function Pick(qs: seq<Quote>, u: real): (r: Option<Quote>)
    requires 0.0 <= u < 1.0
    ensures r.Some? <==> qs != []
    ensures r.Some? ==> r.value in qs
  {
    if qs == [] then None else Some(qs[RandomIndex(u, |qs|)])
  }
}
