/** The design-inspiration service: scoring curated design resources
    against a query, the top results of a search, the component results of
    four related searches, and the fixed list of trending patterns.
    Relevance is counted in tenths: 0.5 is 5, 0.3 is 3, 0.2 is 2. */
module DesignInspiration {
  import opened Common
  import opened Sorting

  datatype Category = Component | Pattern | Inspiration | Tool

  function CategoryName(c: Category): string {
    match c
    case Component => "component"
    case Pattern => "pattern"
    case Inspiration => "inspiration"
    case Tool => "tool"
  }

  datatype Resource = Resource(name: string, url: string, description: string, category: Category, tags: seq<string>)

  datatype SearchResult = SearchResult(title: string, description: string, url: string, category: Category, relevance: nat)

  /** The curated resources. */
  const Resources: seq<Resource> := [
    Resource("Shadcn/ui", "https://ui.shadcn.com/docs/components/button",
      "Copy-paste components with Tailwind CSS and Radix UI", Component,
      ["react", "tailwind", "radix", "typescript", "accessible"]),
    Resource("Headless UI", "https://headlessui.com/",
      "Completely unstyled, accessible UI components", Component,
      ["react", "vue", "accessible", "unstyled", "tailwind"]),
    Resource("NextUI", "https://nextui.org/",
      "Modern React UI library with beautiful default theme", Component,
      ["react", "nextjs", "framer-motion", "modern", "typescript"]),
    Resource("UI Patterns", "https://ui-patterns.com/",
      "User interface design patterns and examples", Pattern,
      ["ux", "ui", "patterns", "examples", "design"]),
    Resource("Page Flows", "https://pageflows.com/",
      "User flow recordings from top SaaS companies", Pattern,
      ["saas", "flows", "ux", "onboarding", "conversion"]),
    Resource("21st.dev Style Apps", "https://collect.so/",
      "Modern SaaS application with glassmorphism design", Inspiration,
      ["saas", "glassmorphism", "modern", "dashboard", "productivity"]),
    Resource("Linear App", "https://linear.app/",
      "Beautiful project management tool with modern design", Inspiration,
      ["project-management", "modern", "dark-mode", "animations"]),
    Resource("Notion", "https://notion.so/",
      "Clean, functional design with excellent UX", Inspiration,
      ["productivity", "clean", "functional", "database"]),
    Resource("Wim Hof Method App", "https://wimhofmethod.com/",
      "Official app for breathing exercises and cold exposure", Inspiration,
      ["cold-therapy", "breathing", "health", "tracking"]),
    Resource("MyFitnessPal", "https://myfitnesspal.com/",
      "Health tracking with excellent data visualization", Inspiration,
      ["health", "tracking", "charts", "habits", "data-viz"]),
    Resource("Framer Motion", "https://framer.com/motion/",
      "Production-ready motion library for React", Tool,
      ["animation", "react", "motion", "transitions"]),
    Resource("Lottie Animations", "https://lottiefiles.com/",
      "Lightweight animations for web and mobile", Tool,
      ["animation", "micro-interactions", "json", "after-effects"])]

  // ---------------------------------------------------------------------
  // Relevance

  /** The space-separated terms of the lower-cased query, empty terms
      included. */
  function Terms(query: string): seq<string> {
    Split(ToLower(query), ' ')
  }

  /** A tag matches when it contains one of the terms. */
  function TagHit(terms: seq<string>): string -> bool {
    (tag: string) => exists i :: 0 <= i < |terms| && Contains(tag, terms[i])
  }

  predicate NameHit(r: Resource, query: string) {
    Contains(ToLower(r.name), ToLower(query))
  }

  predicate DescriptionHit(r: Resource, query: string) {
    Contains(ToLower(r.description), ToLower(query))
  }

  /** The relevance of a resource: 5 for the query in its name, 3 for the
      query in its description and 2 per matching tag. */
  function Relevance(r: Resource, query: string): (n: nat)
    ensures n <= 8 + 2 * |r.tags|
    ensures n > 0 <==> NameHit(r, query) || DescriptionHit(r, query) ||
                       exists t :: t in r.tags && TagHit(Terms(query))(t)
    ensures NameHit(r, query) ==> n >= 5
  {
    CountPositive(r.tags, TagHit(Terms(query)));
    (if NameHit(r, query) then 5 else 0) + (if DescriptionHit(r, query) then 3 else 0) +
      2 * Count(r.tags, TagHit(Terms(query)))
  }

  function ToResult(r: Resource, query: string): SearchResult {
    SearchResult(r.name, r.description, r.url, r.category, Relevance(r, query))
  }

  /** `resources.map(...)` building the results. */
  function Score(rs: seq<Resource>, query: string): (s: seq<SearchResult>)
    ensures |s| == |rs|
    ensures forall i :: 0 <= i < |rs| ==> s[i] == ToResult(rs[i], query)
  {
    if rs == [] then [] else [ToResult(rs[0], query)] + Score(rs[1..], query)
  }

  /** `category ? resource.category === category : true`. */
  function InCategory(category: string): Resource -> bool {
    (r: Resource) => category == "" || CategoryName(r.category) == category
  }

  function Relevant(): SearchResult -> bool {
    (x: SearchResult) => x.relevance > 0
  }

  /** The sort key of `(a, b) => b.relevance - a.relevance`. */
  function ByRelevance(): SearchResult -> int {
    (x: SearchResult) => -(x.relevance as int)
  }

  /** The scored resources of the category with positive relevance. */
  function Candidates(rs: seq<Resource>, query: string, category: string): seq<SearchResult> {
    Filter(Score(Filter(rs, InCategory(category)), query), Relevant())
  }

  // ---------------------------------------------------------------------
  // Search

  /** `searchInspiration`: the candidates in descending order of relevance,
      ties in their original order, at most ten. */
  function SearchInspiration(rs: seq<Resource>, query: string, category: string): (r: seq<SearchResult>)
    ensures |r| <= 10
    ensures SortedBy(r, ByRelevance())
    ensures forall x :: x in r ==> x in Candidates(rs, query, category)
    ensures forall x :: x in r ==> x.relevance > 0 && (category == "" || CategoryName(x.category) == category)
    ensures forall x :: x in Candidates(rs, query, category) ==>
      x in r || (|r| == 10 && forall y :: y in r ==> y.relevance >= x.relevance)
  {
    TopFacts(Candidates(rs, query, category), ByRelevance(), 10);
    CandidatesFacts(rs, query, category);
    Take(SortBy(Candidates(rs, query, category), ByRelevance()), 10)
  }

  /** Every candidate is the result of a resource of the category, and has
      positive relevance. */
  lemma CandidatesFacts(rs: seq<Resource>, query: string, category: string)
    ensures forall x :: x in Candidates(rs, query, category) ==>
      x.relevance > 0 && (category == "" || CategoryName(x.category) == category)
    ensures forall x :: x in Candidates(rs, query, category) ==>
      exists r :: r in rs && InCategory(category)(r) && x == ToResult(r, query)
    ensures forall r :: r in rs && InCategory(category)(r) && Relevance(r, query) > 0 ==>
      ToResult(r, query) in Candidates(rs, query, category)
  {
    var f := Filter(rs, InCategory(category));
    var s := Score(f, query);
    MappedMembers(f, s, (r: Resource) => ToResult(r, query));
  }

  /** The elements of a mapped list are the images of the original
      elements, and every image occurs. */
  lemma MappedMembers<A, B>(a: seq<A>, b: seq<B>, g: A -> B)
    requires |b| == |a| && forall i :: 0 <= i < |a| ==> b[i] == g(a[i])
    ensures forall y :: y in b ==> exists x :: x in a && y == g(x)
    ensures forall x :: x in a ==> g(x) in b
  {
    forall y | y in b ensures exists x :: x in a && y == g(x) {
      var i :| 0 <= i < |b| && b[i] == y;
      assert a[i] in a;
    }
    forall x | x in a ensures g(x) in b {
      var i :| 0 <= i < |a| && a[i] == x;
      assert b[i] == g(x);
    }
  }

  // ---------------------------------------------------------------------
  // Component inspiration

  /** The four queries `getComponentInspiration` searches with. */
  function ComponentQueries(componentType: string): (qs: seq<string>)
    ensures |qs| == 4
  {
    [componentType, componentType + " component", componentType + " react", componentType + " design"]
  }

  function UrlOf(x: SearchResult): string { x.url }

  function UrlIs(url: string): SearchResult -> bool {
    (x: SearchResult) => x.url == url
  }

  /** `filter((r, index, self) => index === self.findIndex(...))` over the
      first n results: each url's first result. */
  function FirstByUrl(s: seq<SearchResult>, n: nat): seq<SearchResult>
    requires n <= |s|
  {
    if n == 0 then []
    else FirstByUrl(s, n - 1) + (if FindIndex(s, UrlIs(s[n - 1].url)) == n - 1 then [s[n - 1]] else [])
  }

  /** Every kept result is one of the first n. */
  lemma {:induction false} FirstByUrlFrom(s: seq<SearchResult>, n: nat)
    requires n <= |s|
    ensures forall x :: x in FirstByUrl(s, n) ==> exists j :: 0 <= j < n && s[j] == x
  {
    if n > 0 {
      FirstByUrlFrom(s, n - 1);
      var prev := FirstByUrl(s, n - 1);
      forall x | x in FirstByUrl(s, n) ensures exists j :: 0 <= j < n && s[j] == x {
        if x !in prev {
          assert s[n - 1] == x;
        } else {
          var j :| 0 <= j < n - 1 && s[j] == x;
        }
      }
    }
  }

  /** Some result in r has that url. */
  predicate UrlCovered(r: seq<SearchResult>, url: string) {
    exists x :: x in r && x.url == url
  }

  lemma {:induction false} FirstByUrlCovers(s: seq<SearchResult>, n: nat)
    requires n <= |s|
    ensures forall j :: 0 <= j < n ==> UrlCovered(FirstByUrl(s, n), s[j].url)
  {
    if n > 0 {
      FirstByUrlCovers(s, n - 1);
      var prev := FirstByUrl(s, n - 1);
      var first := FirstByUrlStep(s, n);
      var r := FirstByUrl(s, n);
      if first == n - 1 {
        assert r[|r| - 1] == s[n - 1];
      } else {
        assert UrlCovered(prev, s[first].url);
      }
      assert UrlCovered(r, s[n - 1].url);
      forall j | 0 <= j < n - 1 ensures UrlCovered(r, s[j].url) {
        var x :| x in prev && x.url == s[j].url;
        InPrefix(prev, if first == n - 1 then [s[n - 1]] else [], x);
      }
    }
  }

  lemma InPrefix<T>(a: seq<T>, b: seq<T>, x: T)
    requires x in a
    ensures x in a + b
  {
    var i :| 0 <= i < |a| && a[i] == x;
    assert (a + b)[i] == x;
  }

  /** One step of the duplicate filter: the n-th result is kept exactly
      when it is the first of its url, and otherwise an earlier result
      has its url. */
  lemma FirstByUrlStep(s: seq<SearchResult>, n: nat) returns (first: int)
    requires 0 < n <= |s|
    ensures 0 <= first < n && s[first].url == s[n - 1].url
    ensures first == n - 1 ==> FirstByUrl(s, n) == FirstByUrl(s, n - 1) + [s[n - 1]]
    ensures first < n - 1 ==> FirstByUrl(s, n) == FirstByUrl(s, n - 1)
  {
    first := FindIndex(s, UrlIs(s[n - 1].url));
    assert UrlIs(s[n - 1].url)(s[n - 1]);
  }

  /** Each url is kept once. */
  lemma {:induction false} FirstByUrlDistinct(s: seq<SearchResult>, n: nat)
    requires n <= |s|
    ensures DistinctBy(FirstByUrl(s, n), UrlOf)
  {
    if n > 0 {
      FirstByUrlDistinct(s, n - 1);
      FirstByUrlFrom(s, n - 1);
      var prev := FirstByUrl(s, n - 1);
      var r := FirstByUrl(s, n);
      var first := FindIndex(s, UrlIs(s[n - 1].url));
      if first == n - 1 {
        assert r == prev + [s[n - 1]];
        forall i, k | 0 <= i < k < |r| ensures r[i].url != r[k].url {
          if k == |prev| {
            assert r[i] in prev;
            var j :| 0 <= j < n - 1 && s[j] == r[i];
            assert !UrlIs(s[n - 1].url)(s[j]);
          } else {
            assert r[i] == prev[i] && r[k] == prev[k];
          }
        }
      } else {
        assert r == prev;
      }
    }
  }

  function Dedupe(s: seq<SearchResult>): seq<SearchResult> {
    FirstByUrl(s, |s|)
  }

  /** The results of the four searches, in query order. */
  function AllResults(rs: seq<Resource>, qs: seq<string>): (r: seq<SearchResult>) {
    if qs == [] then [] else AllResults(rs, qs[..|qs| - 1]) + SearchInspiration(rs, qs[|qs| - 1], "component")
  }

  lemma {:induction false} AllResultsComponents(rs: seq<Resource>, qs: seq<string>)
    ensures forall x :: x in AllResults(rs, qs) ==> x.category == Component && x.relevance > 0
  {
    if qs != [] {
      AllResultsComponents(rs, qs[..|qs| - 1]);
    }
  }

  /** `getComponentInspiration`: the component results of the four
      searches, one per url, in descending order of relevance, at most
      eight. */
  method ComponentInspiration(rs: seq<Resource>, componentType: string) returns (results: seq<SearchResult>)
    ensures |results| <= 8
    ensures SortedBy(results, ByRelevance())
    ensures DistinctBy(results, UrlOf)
    ensures forall x :: x in results ==> x.category == Component && x.relevance > 0
    ensures forall x :: x in results ==> x in AllResults(rs, ComponentQueries(componentType))
    ensures forall x :: x in AllResults(rs, ComponentQueries(componentType)) ==>
      |results| == 8 || exists y :: y in results && y.url == x.url
    ensures forall x :: x in Dedupe(AllResults(rs, ComponentQueries(componentType))) ==>
      x in results || (|results| == 8 && forall y :: y in results ==> y.relevance >= x.relevance)
  {
    var queries := ComponentQueries(componentType);
    var all := CollectResults(rs, queries);
    AllResultsComponents(rs, queries);
    TopUniqueFacts(all);
    results := Take(SortBy(Dedupe(all), ByRelevance()), 8);
  }

  /** `queries.forEach(query => allResults.push(...))`: the component
      results of each query, appended in query order. */
  method CollectResults(rs: seq<Resource>, queries: seq<string>) returns (all: seq<SearchResult>)
    ensures all == AllResults(rs, queries)
  {
    all := [];
    for i := 0 to |queries|
      invariant all == AllResults(rs, queries[..i])
    {
      assert queries[..i + 1][..i] == queries[..i];
      all := all + SearchInspiration(rs, queries[i], "component");
    }
    assert queries[..|queries|] == queries;
  }

  /** The facts of the last step, deduplication, sorting and the first
      eight. */
  lemma TopUniqueFacts(all: seq<SearchResult>)
    ensures var r := Take(SortBy(Dedupe(all), ByRelevance()), 8);
      SortedBy(r, ByRelevance()) && DistinctBy(r, UrlOf) &&
      (forall x :: x in r ==> x in all) &&
      (forall x :: x in all ==> |r| == 8 || exists y :: y in r && y.url == x.url) &&
      (forall x :: x in Dedupe(all) ==> x in r || (|r| == 8 && forall y :: y in r ==> y.relevance >= x.relevance))
  {
    TopFacts(Dedupe(all), ByRelevance(), 8);
    TopUniqueBest(all);
    FirstByUrlDistinct(all, |all|);
    TopDistinct(Dedupe(all));
    TopUniqueFrom(all);
    TopUniqueCovers(all);
  }

  /** A deduplicated result left out is no more relevant than any of the
      eight kept. */
  lemma TopUniqueBest(all: seq<SearchResult>)
    ensures var r := Take(SortBy(Dedupe(all), ByRelevance()), 8);
      forall x :: x in Dedupe(all) ==> x in r || (|r| == 8 && forall y :: y in r ==> y.relevance >= x.relevance)
  {
    var unique := Dedupe(all);
    var r := Take(SortBy(unique, ByRelevance()), 8);
    TopFacts(unique, ByRelevance(), 8);
    forall x | x in unique && x !in r ensures |r| == 8 && forall y :: y in r ==> y.relevance >= x.relevance {
      assert forall y :: y in r ==> ByRelevance()(y) <= ByRelevance()(x);
    }
  }

  lemma TopUniqueFrom(all: seq<SearchResult>)
    ensures forall x :: x in Take(SortBy(Dedupe(all), ByRelevance()), 8) ==> x in all
  {
    var unique := Dedupe(all);
    TopFacts(unique, ByRelevance(), 8);
    FirstByUrlFrom(all, |all|);
    forall x | x in Take(SortBy(unique, ByRelevance()), 8) ensures x in all {
      assert x in unique;
      var j :| 0 <= j < |all| && all[j] == x;
    }
  }

  lemma TopUniqueCovers(all: seq<SearchResult>)
    ensures var r := Take(SortBy(Dedupe(all), ByRelevance()), 8);
      forall x :: x in all ==> |r| == 8 || exists y :: y in r && y.url == x.url
  {
    var unique := Dedupe(all);
    TopFacts(unique, ByRelevance(), 8);
    FirstByUrlCovers(all, |all|);
    var r := Take(SortBy(unique, ByRelevance()), 8);
    forall x | x in all ensures |r| == 8 || exists y :: y in r && y.url == x.url {
      var j :| 0 <= j < |all| && all[j] == x;
      var u :| u in unique && u.url == all[j].url;
      assert u in r || |r| == 8;
    }
  }

  lemma TopDistinct(unique: seq<SearchResult>)
    ensures DistinctBy(unique, UrlOf) ==> DistinctBy(Take(SortBy(unique, ByRelevance()), 8), UrlOf)
  {
    if DistinctBy(unique, UrlOf) {
      var sorted := SortBy(unique, ByRelevance());
      SortByDistinct(unique, ByRelevance(), UrlOf);
      var r := Take(sorted, 8);
      assert forall i :: 0 <= i < |r| ==> r[i] == sorted[i];
    }
  }

  // ---------------------------------------------------------------------
  // Trending patterns

  const TrendingPatterns: seq<string> := [
    "Glassmorphism UI Design", "Neumorphism Components", "Dark Mode Interfaces", "Micro-interactions",
    "Data Visualization Dashboards", "Mobile-first Design", "Accessibility-focused UI", "Progressive Web Apps",
    "Voice User Interfaces", "AI-powered Interfaces", "Habit Tracking UX Patterns", "Health App Design Patterns",
    "Gamification Elements", "Social Sharing Components", "Real-time Notifications", "Onboarding Flow Design",
    "Progress Visualization", "Calendar & Date Pickers", "Form Validation UX", "Loading State Animations"]

  /** `getTrendingPatterns`: the same twenty patterns every time. */
  function GetTrendingPatterns(): (r: seq<string>)
    ensures |r| == 20
    ensures r[0] == "Glassmorphism UI Design" && r[19] == "Loading State Animations"
  {
    TrendingPatterns
  }
}
