/**
 * The documentation search page: the fixed result list, the blank-query guard,
 * case-insensitive substring matching on title and snippet, the per-tab type
 * filter and the per-type counts shown on the tabs.
 */
module Search {
  import opened Wrappers
  import opened Text
  import opened Seqs

  datatype Complexity = Beginner | Intermediate | Advanced

  /** The variant part of a result; the constructor decides the result's `type` tag. */
  datatype Kind =
    | Section(parentSection: Option<string>)
    | Article(author: string, publishDate: string)
    | CodeExample(language: string, complexity: Complexity)
    | Concept(relatedConcepts: seq<string>)

  datatype SearchResult = SearchResult(id: string, title: string, snippet: string, url: string, kind: Kind)

  /** The `type` string of a result; the four values are the only ones a result can carry. */
  function TypeName(r: SearchResult): (t: string)
    ensures t in TypeNames
  {
    match r.kind
    case Section(_) => "section"
    case Article(_, _) => "article"
    case CodeExample(_, _) => "codeExample"
    case Concept(_) => "concept"
  }

  const TypeNames: seq<string> := ["section", "article", "codeExample", "concept"]

  /** The six mock results, in the order they are listed. */
  const Catalogue: seq<SearchResult> := [
    SearchResult("section-1", "Self-Attention Mechanism",
      "...The self-attention mechanism is the core component of transformer models, allowing the model to weigh the importance of different words in the input sequence...",
      "/#attention", Section(Some("Transformer Architecture"))),
    SearchResult("section-2", "Multi-Head Attention",
      "...Multi-head attention allows the model to jointly attend to information from different representation subspaces at different positions...",
      "/#multi-head-attention", Section(Some("Self-Attention Mechanism"))),
    SearchResult("article-1", "Understanding Transformer Attention",
      "...Attention mechanisms have become a critical component in modern NLP models, particularly in transformer architectures...",
      "/articles/understanding-transformer-attention", Article("Jane Smith", "2023-08-15")),
    SearchResult("code-1", "Implementing Self-Attention in PyTorch",
      "class SelfAttention(nn.Module):\n    def __init__(self, embed_size, heads):\n        super(SelfAttention, self).__init__()\n        self.embed_size = embed_size\n        self.heads = heads\n        self.head_dim = embed_size // heads...",
      "/examples/self-attention-pytorch", CodeExample("python", Intermediate)),
    SearchResult("concept-1", "Scaled Dot-Product Attention",
      "...Scaled dot-product attention computes the attention weights by taking the dot product of the query with all keys, dividing by the square root of the dimension of the keys...",
      "/concepts/scaled-dot-product-attention", Concept(["Query-Key-Value", "Softmax Function", "Attention Weights"])),
    SearchResult("concept-2", "Positional Encoding",
      "...Since transformer models don't have any built-in sequence order information, positional encodings are added to give the model information about the position of tokens...",
      "/concepts/positional-encoding", Concept(["Sinusoidal Encoding", "Learned Positional Embeddings"]))
  ]

  /** The filter callback: the lower-cased title or snippet contains the lower-cased (untrimmed) query. */
  predicate Matches(r: SearchResult, query: string) {
    Includes(Lower(r.title), Lower(query)) || Includes(Lower(r.snippet), Lower(query))
  }

  /** What a match means, stated without the scanning function. */
  ghost predicate Relevant(r: SearchResult, query: string) {
    OccursIn(Lower(query), Lower(r.title)) || OccursIn(Lower(query), Lower(r.snippet))
  }

  lemma MatchesIffRelevant(r: SearchResult, query: string)
    ensures Matches(r, query) <==> Relevant(r, query)
  {
    IncludesIffOccurs(Lower(r.title), Lower(query));
    IncludesIffOccurs(Lower(r.snippet), Lower(query));
  }

  /** `getSearchResults` over an arbitrary list of candidates. */
  function SearchIn(items: seq<SearchResult>, query: string): (rs: seq<SearchResult>)
    ensures AllSpace(query) ==> rs == []
    ensures SubsequenceOf(rs, items)
    ensures forall i :: 0 <= i < |rs| ==> rs[i] in items && Relevant(rs[i], query)
    ensures !AllSpace(query) ==> forall i :: 0 <= i < |items| && Relevant(items[i], query) ==> items[i] in rs
  {
    TrimEmptyIffAllSpace(query);
    if Trim(query) == [] then
      assert SubsequenceOf([], items);
      []
    else
      var rs := Filter(items, r => Matches(r, query));
      forall i | 0 <= i < |rs| ensures Relevant(rs[i], query) {
        MatchesIffRelevant(rs[i], query);
      }
      forall i | 0 <= i < |items| && Relevant(items[i], query) ensures items[i] in rs {
        MatchesIffRelevant(items[i], query);
      }
      rs
  }

  /** The results for a query: a blank query gives none; otherwise exactly the matching catalogue entries, in catalogue order. */
  function GetSearchResults(query: string): (rs: seq<SearchResult>)
    ensures AllSpace(query) ==> rs == []
    ensures SubsequenceOf(rs, Catalogue)
    ensures forall i :: 0 <= i < |rs| ==> Relevant(rs[i], query)
    ensures !AllSpace(query) ==> forall r :: r in Catalogue ==> (r in rs <==> Relevant(r, query))
  {
    SearchIn(Catalogue, query)
  }

  lemma LowerKeepsSpace(s: string)
    ensures AllSpace(Lower(s)) <==> AllSpace(s)
  {
    assert forall i :: 0 <= i < |s| ==> (IsSpace(Lower(s)[i]) <==> IsSpace(s[i]));
  }

  /** Two queries that lower-case to the same string give identical results, in any candidate list. */
  lemma SearchCaseInsensitive(items: seq<SearchResult>, q1: string, q2: string)
    requires Lower(q1) == Lower(q2)
    ensures SearchIn(items, q1) == SearchIn(items, q2)
  {
    LowerKeepsSpace(q1);
    LowerKeepsSpace(q2);
    TrimEmptyIffAllSpace(q1);
    TrimEmptyIffAllSpace(q2);
    FilterCongruent(items, r => Matches(r, q1), r => Matches(r, q2));
  }

  lemma GetSearchResultsCaseInsensitive(q1: string, q2: string)
    requires Lower(q1) == Lower(q2)
    ensures GetSearchResults(q1) == GetSearchResults(q2)
  {
    SearchCaseInsensitive(Catalogue, q1, q2);
  }

  /** The results listed under a tab: "all" shows everything, any other tab the results of that type, in order. */
  function TabFilter(tab: string, rs: seq<SearchResult>): (shown: seq<SearchResult>)
    ensures tab == "all" ==> shown == rs
    ensures SubsequenceOf(shown, rs)
    ensures tab != "all" ==> forall i :: 0 <= i < |shown| ==> TypeName(shown[i]) == tab
    ensures tab != "all" ==> forall i :: 0 <= i < |rs| && TypeName(rs[i]) == tab ==> rs[i] in shown
  {
    if tab == "all" then SubsequenceRefl(rs); rs
    else Filter(rs, r => TypeName(r) == tab)
  }



  /** The number in brackets on a type's tab. */
  function CountOf(rs: seq<SearchResult>, t: string): nat {
    |Filter(rs, r => TypeName(r) == t)|
  }

  lemma CountOfCons(rs: seq<SearchResult>, t: string)
    requires rs != []
    ensures CountOf(rs, t) == CountOf(rs[1..], t) + (if TypeName(rs[0]) == t then 1 else 0)
  {
  }

  lemma TypeNamesDistinct()
    ensures "section" != "concept" && "section" != "codeExample" && "section" != "article"
    ensures "concept" != "codeExample" && "concept" != "article" && "codeExample" != "article"
  {
    assert "section"[0] == 's' && "concept"[0] == 'c' && "article"[0] == 'a';
    assert "concept"[2] == 'n' && "codeExample"[2] == 'd';
  }

  /** A single result adds one to exactly one of the four tab counts. */
  lemma OneTypeEach(r: SearchResult)
    ensures (if TypeName(r) == "section" then 1 else 0) + (if TypeName(r) == "concept" then 1 else 0)
          + (if TypeName(r) == "codeExample" then 1 else 0) + (if TypeName(r) == "article" then 1 else 0) == 1
  {
    TypeNamesDistinct();
  }

  /** Every result has one of the four types, so the four tab counts add up to the "All" count. */
  lemma {:induction false} TypeCountsSum(rs: seq<SearchResult>)
    ensures CountOf(rs, "section") + CountOf(rs, "concept") + CountOf(rs, "codeExample") + CountOf(rs, "article") == |rs|
    decreases |rs|
  {
    if rs != [] {
      TypeCountsSum(rs[1..]);
      CountOfCons(rs, "section");
      CountOfCons(rs, "concept");
      CountOfCons(rs, "codeExample");
      CountOfCons(rs, "article");
      OneTypeEach(rs[0]);
    }
  }

  /** The state of the search page that the search logic touches. */
  datatype Page = Page(query: string, results: seq<SearchResult>, activeTab: string)

  /** `handleSearch`, with the half-second delay collapsed: a blank query does nothing. */
  function HandleSearch(p: Page): (p': Page)
    ensures AllSpace(p.query) ==> p' == p
    ensures p'.query == p.query && p'.activeTab == p.activeTab
    ensures !AllSpace(p.query) ==> p'.results == GetSearchResults(p.query)
  {
    TrimEmptyIffAllSpace(p.query);
    if Trim(p.query) == [] then p
    else p.(results := GetSearchResults(p.query))
  }

  /** The results shown below the tabs. */
  function Shown(p: Page): (shown: seq<SearchResult>)
    ensures forall r :: r in shown ==> r in p.results
    ensures p.activeTab == "all" ==> shown == p.results
    ensures p.activeTab != "all" ==> forall r :: r in p.results ==> (r in shown <==> TypeName(r) == p.activeTab)
  {
    SubsequenceMembers(TabFilter(p.activeTab, p.results), p.results);
    TabFilter(p.activeTab, p.results)
  }

  /** Mounting the page with a query taken from the address: the search runs when that query is non-empty. */
  function Mount(initialQuery: string): (p: Page)
    ensures p.query == initialQuery && p.activeTab == "all"
    ensures AllSpace(initialQuery) ==> p.results == []
    ensures p.results == GetSearchResults(initialQuery)
  {
    var p0 := Page(initialQuery, [], "all");
    if initialQuery != "" then HandleSearch(p0) else p0
  }

  /** Searching twice for the same query is the same as searching once. */
  lemma HandleSearchIdempotent(p: Page)
    ensures HandleSearch(HandleSearch(p)) == HandleSearch(p)
  {
  }

  /** After a search every result shown on any tab is relevant to the query in the box. */
  lemma ShownAreRelevant(p: Page)
    requires !AllSpace(p.query)
    ensures forall r :: r in Shown(HandleSearch(p)) ==> Relevant(r, p.query)
  {
  }


}
