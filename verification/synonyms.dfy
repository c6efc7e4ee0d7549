/**
  The interest synonym table (utils/synonyms.ts) and the one-hop expansion
  the matcher applies to the viewer's interest tokens (views/Match.tsx).
 */
module Synonyms {
  import opened Options
  import Strings

  /** One key of the table and the terms listed under it. */
  datatype Entry = Entry(key: string, terms: seq<string>)

  /** A synonym table, in declaration order: the order Object.entries visits. */
  type Index = seq<Entry>

  /** Computer Science & Programming. */
  const Computing: Index := [
    Entry("programming", ["coding", "software development", "computer science", "web development", "app development", "algorithms", "software engineering", "development", "programming languages"]),
    Entry("computer science", ["programming", "coding", "software engineering", "algorithms", "data structures", "ai", "machine learning", "cs", "computing"]),
    Entry("coding", ["programming", "software development", "computer science", "development", "web dev"]),
    Entry("ai", ["artificial intelligence", "machine learning", "deep learning", "neural networks", "computer science", "ml", "data science"]),
    Entry("machine learning", ["ai", "artificial intelligence", "ml", "deep learning", "data science", "neural networks"]),
    Entry("web development", ["web dev", "frontend", "backend", "fullstack", "programming", "coding", "javascript", "html", "css"]),
    Entry("data science", ["data analysis", "statistics", "machine learning", "ai", "big data", "analytics"])
  ]

  /** Literature & Writing. */
  const Literature: Index := [
    Entry("english literature", ["english", "literature", "creative writing", "poetry", "novels", "reading", "literary analysis", "books"]),
    Entry("literature", ["english literature", "reading", "books", "novels", "poetry", "creative writing"]),
    Entry("creative writing", ["writing", "english literature", "poetry", "fiction", "storytelling", "composition"]),
    Entry("poetry", ["creative writing", "literature", "english literature", "verse", "poems"])
  ]

  /** Mathematics & Sciences. */
  const Sciences: Index := [
    Entry("mathematics", ["math", "calculus", "algebra", "geometry", "statistics", "probability", "maths", "mathematical analysis"]),
    Entry("math", ["mathematics", "calculus", "algebra", "statistics", "geometry"]),
    Entry("calculus", ["mathematics", "math", "analysis", "derivatives", "integrals"]),
    Entry("statistics", ["math", "mathematics", "data analysis", "probability", "data science", "stats"]),
    Entry("biology", ["life science", "genetics", "anatomy", "physiology", "microbiology", "bio", "life sciences"]),
    Entry("genetics", ["biology", "dna", "heredity", "molecular biology", "life science"]),
    Entry("physics", ["mechanics", "quantum physics", "astrophysics", "thermodynamics", "physical science"]),
    Entry("chemistry", ["organic chemistry", "biochemistry", "inorganic chemistry", "chem", "chemical science"])
  ]

  /** Social Sciences. */
  const SocialSciences: Index := [
    Entry("psychology", ["behavioral science", "cognitive science", "neuroscience", "psych", "mental health"]),
    Entry("economics", ["business", "finance", "microeconomics", "macroeconomics", "econ", "economy"]),
    Entry("business", ["economics", "finance", "marketing", "management", "entrepreneurship", "commerce"]),
    Entry("history", ["world history", "european history", "american history", "ancient history", "historical studies"])
  ]

  /** Arts & Humanities. */
  const Arts: Index := [
    Entry("art", ["painting", "drawing", "sculpture", "art history", "design", "visual arts", "fine arts"]),
    Entry("music", ["theory", "composition", "performance", "music history", "musical studies"]),
    Entry("philosophy", ["ethics", "logic", "metaphysics", "epistemology", "critical thinking"])
  ]

  /** Engineering & Technology. */
  const Engineering: Index := [
    Entry("engineering", ["mechanical engineering", "electrical engineering", "civil engineering", "robotics", "technology"]),
    Entry("robotics", ["engineering", "ai", "automation", "mechanical engineering", "programming"])
  ]

  /** INTEREST_SYNONYMS: the six groups of the source, in declaration order. */
  const Table: Index := Computing + Literature + Sciences + SocialSciences + Arts + Engineering

  /** t is a key of the table. */
  predicate IsKey(ix: Index, t: string) {
    exists i :: 0 <= i < |ix| && ix[i].key == t
  }

  /** t is a listed term of some key. */
  predicate IsListed(ix: Index, t: string) {
    exists i :: 0 <= i < |ix| && t in ix[i].terms
  }

  /** INTEREST_SYNONYMS[t]: the terms of the entry keyed t, if there is one. */
  function Lookup(ix: Index, t: string): (r: Option<seq<string>>)
    ensures r.None? <==> !IsKey(ix, t)
    ensures r.Some? ==> Entry(t, r.value) in ix
  {
    if |ix| == 0 then None
    else if ix[0].key == t then Some(ix[0].terms)
    else
      var r := Lookup(ix[1..], t);
      assert forall i :: 1 <= i < |ix| ==> ix[i] == ix[1..][i - 1];
      r
  }

  /** The terms listed directly under t, or none when t is not a key. */
  function Direct(ix: Index, t: string): seq<string> {
    match Lookup(ix, t)
    case Some(terms) => terms
    case None => []
  }

  /** Reverse expansion, visiting the entries in order: every key whose list
      mentions t, together with that key's whole list. */
  function Reverse(ix: Index, t: string): set<string> {
    if |ix| == 0 then {}
    else
      (if t in ix[0].terms then {ix[0].key} + (set s | s in ix[0].terms) else {})
      + Reverse(ix[1..], t)
  }

  /** x comes from reverse expansion of t: some entry lists t and x is that
      entry's key or one of its terms. */
  ghost predicate ReverseRelated(ix: Index, t: string, x: string) {
    exists i :: 0 <= i < |ix| && t in ix[i].terms && (x == ix[i].key || x in ix[i].terms)
  }

  lemma {:induction false} ReverseIff(ix: Index, t: string, x: string)
    ensures x in Reverse(ix, t) <==> ReverseRelated(ix, t, x)
  {
    if |ix| > 0 {
      ReverseIff(ix[1..], t, x);
      if ReverseRelated(ix[1..], t, x) {
        var i :| 0 <= i < |ix[1..]| && t in ix[1..][i].terms && (x == ix[1..][i].key || x in ix[1..][i].terms);
        assert ix[i + 1] == ix[1..][i];
      }
      if ReverseRelated(ix, t, x) {
        var i :| 0 <= i < |ix| && t in ix[i].terms && (x == ix[i].key || x in ix[i].terms);
        if i > 0 {
          assert ix[1..][i - 1] == ix[i];
        }
      }
    }
  }

  /** What one viewer token contributes: itself, its direct synonyms and its
      reverse expansion. */
  function ExpandToken(ix: Index, t: string): set<string> {
    {t} + (set s | s in Direct(ix, t)) + Reverse(ix, t)
  }

  /** The expanded interest set: the union, over every token, of what it contributes. */
  function Expand(ix: Index, tokens: seq<string>): (r: set<string>)
    ensures forall i :: 0 <= i < |tokens| ==> ExpandToken(ix, tokens[i]) <= r
  {
    if |tokens| == 0 then {}
    else
      var rest := Expand(ix, tokens[1..]);
      assert forall i :: 1 <= i < |tokens| ==> tokens[i] == tokens[1..][i - 1];
      ExpandToken(ix, tokens[0]) + rest
  }

  /** Some token contributes x. */
  ghost predicate ContributedBy(ix: Index, tokens: seq<string>, x: string) {
    exists i :: 0 <= i < |tokens| && x in ExpandToken(ix, tokens[i])
  }

  /** Nothing enters the expansion except what some token contributes. */
  lemma {:induction false} ExpandOnlyContributions(ix: Index, tokens: seq<string>, x: string)
    requires x in Expand(ix, tokens)
    ensures ContributedBy(ix, tokens, x)
  {
    if x !in ExpandToken(ix, tokens[0]) {
      ExpandOnlyContributions(ix, tokens[1..], x);
      var i :| 0 <= i < |tokens[1..]| && x in ExpandToken(ix, tokens[1..][i]);
      assert tokens[1..][i] == tokens[i + 1];
    }
  }

  /** A term that is neither a key nor listed anywhere expands to itself only. */
  lemma UnknownTermExpandsToItself(ix: Index, t: string)
    requires !IsKey(ix, t) && !IsListed(ix, t)
    ensures ExpandToken(ix, t) == {t}
  {
    forall x ensures x !in Reverse(ix, t) {
      ReverseIff(ix, t, x);
    }
  }

  /** The map view of a table: the first entry with a key gives its terms. */
  function AsMap(ix: Index): (m: map<string, seq<string>>)
    ensures forall t :: t in m <==> IsKey(ix, t)
  {
    if |ix| == 0 then map[]
    else
      var m := AsMap(ix[1..])[ix[0].key := ix[0].terms];
      assert forall t :: IsKey(ix[1..], t) ==> IsKey(ix, t) by {
        forall t | IsKey(ix[1..], t) ensures IsKey(ix, t) {
          var i :| 0 <= i < |ix[1..]| && ix[1..][i].key == t;
          assert ix[i + 1].key == t;
        }
      }
      assert forall t :: IsKey(ix, t) ==> t == ix[0].key || IsKey(ix[1..], t) by {
        forall t | IsKey(ix, t) && t != ix[0].key ensures IsKey(ix[1..], t) {
          var i :| 0 <= i < |ix| && ix[i].key == t;
          assert ix[1..][i - 1].key == t;
        }
      }
      m
  }

  /** Looking a token up in the table is looking it up in its map view. */
  lemma {:induction false} LookupIsMapLookup(ix: Index, t: string)
    ensures Lookup(ix, t) == if t in AsMap(ix) then Some(AsMap(ix)[t]) else None
  {
    if |ix| > 0 && ix[0].key != t {
      LookupIsMapLookup(ix[1..], t);
    }
  }

  /** No key occurs twice. */
  predicate DistinctKeys(ix: Index) {
    forall i, j :: 0 <= i < j < |ix| ==> ix[i].key != ix[j].key
  }

  /** With distinct keys, the lookup of an entry's key finds that entry's terms. */
  lemma {:induction false} LookupDistinct(ix: Index, i: int)
    requires DistinctKeys(ix)
    requires 0 <= i < |ix|
    ensures Lookup(ix, ix[i].key) == Some(ix[i].terms)
  {
    if i > 0 {
      assert ix[1..][i - 1] == ix[i];
      LookupDistinct(ix[1..], i - 1);
    }
  }

  /** No key of a is a key of b. */
  predicate KeysDisjoint(a: Index, b: Index) {
    forall i, j :: 0 <= i < |a| && 0 <= j < |b| ==> a[i].key != b[j].key
  }

  lemma DistinctConcat(a: Index, b: Index)
    requires DistinctKeys(a) && DistinctKeys(b) && KeysDisjoint(a, b)
    ensures DistinctKeys(a + b)
  {
    forall i, j | 0 <= i < j < |a + b| ensures (a + b)[i].key != (a + b)[j].key {
      if j < |a| {
        assert (a + b)[i] == a[i] && (a + b)[j] == a[j];
      } else if i < |a| {
        assert (a + b)[i] == a[i] && (a + b)[j] == b[j - |a|];
      } else {
        assert (a + b)[i] == b[i - |a|] && (a + b)[j] == b[j - |a|];
      }
    }
  }

  lemma DisjointConcatLeft(a: Index, b: Index, c: Index)
    requires KeysDisjoint(a, c) && KeysDisjoint(b, c)
    ensures KeysDisjoint(a + b, c)
  {
    forall i, j | 0 <= i < |a + b| && 0 <= j < |c| ensures (a + b)[i].key != c[j].key {
      if i < |a| {
        assert (a + b)[i] == a[i];
      } else {
        assert (a + b)[i] == b[i - |a|];
      }
    }
  }

  /** Every entry of the table satisfies p. */
  predicate AllEntries(ix: Index, p: Entry -> bool) {
    forall i :: 0 <= i < |ix| ==> p(ix[i])
  }

  lemma AllEntriesConcat(a: Index, b: Index, p: Entry -> bool)
    ensures AllEntries(a + b, p) <==> AllEntries(a, p) && AllEntries(b, p)
  {
    if AllEntries(a + b, p) {
      forall i | 0 <= i < |a| ensures p(a[i]) {
        assert (a + b)[i] == a[i];
      }
      forall i | 0 <= i < |b| ensures p(b[i]) {
        assert (a + b)[|a| + i] == b[i];
      }
    }
    if AllEntries(a, p) && AllEntries(b, p) {
      forall i | 0 <= i < |a + b| ensures p((a + b)[i]) {
        if i < |a| {
          assert (a + b)[i] == a[i];
        } else {
          assert (a + b)[i] == b[i - |a|];
        }
      }
    }
  }

  /** A fact about every entry of each group is a fact about every entry of the table. */
  lemma AllTableEntries(p: Entry -> bool)
    requires AllEntries(Computing, p) && AllEntries(Literature, p) && AllEntries(Sciences, p)
    requires AllEntries(SocialSciences, p) && AllEntries(Arts, p) && AllEntries(Engineering, p)
    ensures AllEntries(Table, p)
  {
    AllEntriesConcat(Computing, Literature, p);
    AllEntriesConcat(Computing + Literature, Sciences, p);
    AllEntriesConcat(Computing + Literature + Sciences, SocialSciences, p);
    AllEntriesConcat(Computing + Literature + Sciences + SocialSciences, Arts, p);
    AllEntriesConcat(Computing + Literature + Sciences + SocialSciences + Arts, Engineering, p);
  }

  // Facts about INTEREST_SYNONYMS itself, proved group by group.

  lemma GroupKeysDistinctA()
    ensures DistinctKeys(Computing) && DistinctKeys(Literature)
  {
  }

  lemma GroupKeysDistinctC()
    ensures DistinctKeys(Sciences)
  {
  }

  lemma GroupKeysDistinctB()
    ensures DistinctKeys(SocialSciences) && DistinctKeys(Arts) && DistinctKeys(Engineering)
  {
  }

  lemma EarlierKeysA()
    ensures KeysDisjoint(Computing, Literature)
  {
  }

  lemma EarlierKeysG()
    ensures KeysDisjoint(Computing, Sciences)
  {
  }

  lemma EarlierKeysH()
    ensures KeysDisjoint(Literature, Sciences)
  {
  }

  lemma EarlierKeysB()
    ensures KeysDisjoint(Computing, SocialSciences) && KeysDisjoint(Literature, SocialSciences)
  {
  }

  lemma EarlierKeysI()
    ensures KeysDisjoint(Sciences, SocialSciences)
  {
  }

  lemma EarlierKeysC()
    ensures KeysDisjoint(Computing, Arts) && KeysDisjoint(Literature, Arts)
  {
  }

  lemma EarlierKeysF()
    ensures KeysDisjoint(Sciences, Arts) && KeysDisjoint(SocialSciences, Arts)
  {
  }

  lemma EarlierKeysD()
    ensures KeysDisjoint(Computing, Engineering) && KeysDisjoint(Literature, Engineering)
    ensures KeysDisjoint(Sciences, Engineering)
  {
  }

  lemma EarlierKeysE()
    ensures KeysDisjoint(SocialSciences, Engineering) && KeysDisjoint(Arts, Engineering)
  {
  }

  /** The table is a map: no key is declared twice. */
  lemma TableKeysDistinct()
    ensures DistinctKeys(Table)
  {
    GroupKeysDistinctA();
    GroupKeysDistinctB();
    GroupKeysDistinctC();
    EarlierKeysA();
    EarlierKeysG();
    EarlierKeysH();
    EarlierKeysB();
    EarlierKeysI();
    EarlierKeysC();
    EarlierKeysD();
    EarlierKeysE();
    EarlierKeysF();
    var g1 := Computing + Literature;
    DistinctConcat(Computing, Literature);
    DisjointConcatLeft(Computing, Literature, Sciences);
    DistinctConcat(g1, Sciences);
    var g2 := g1 + Sciences;
    DisjointConcatLeft(Computing, Literature, SocialSciences);
    DisjointConcatLeft(g1, Sciences, SocialSciences);
    DistinctConcat(g2, SocialSciences);
    var g3 := g2 + SocialSciences;
    DisjointConcatLeft(Computing, Literature, Arts);
    DisjointConcatLeft(g1, Sciences, Arts);
    DisjointConcatLeft(g2, SocialSciences, Arts);
    DistinctConcat(g3, Arts);
    var g4 := g3 + Arts;
    DisjointConcatLeft(Computing, Literature, Engineering);
    DisjointConcatLeft(g1, Sciences, Engineering);
    DisjointConcatLeft(g2, SocialSciences, Engineering);
    DisjointConcatLeft(g3, Arts, Engineering);
    DistinctConcat(g4, Engineering);
  }

  predicate KeyIsLower(e: Entry) {
    Strings.IsLowerString(e.key)
  }

  lemma ComputingKeysLower()
    ensures AllEntries(Computing, KeyIsLower)
  {
    ComputingFirstKeysLower();
    ComputingLastKeysLower();
  }

  lemma ComputingFirstKeysLower()
    ensures forall i :: 0 <= i < 4 ==> KeyIsLower(Computing[i])
  {
    assert KeyIsLower(Computing[0]);
    assert KeyIsLower(Computing[1]);
    assert KeyIsLower(Computing[2]);
    assert KeyIsLower(Computing[3]);
  }

  lemma ComputingLastKeysLower()
    ensures forall i :: 4 <= i < 7 ==> KeyIsLower(Computing[i])
  {
    assert KeyIsLower(Computing[4]);
    assert KeyIsLower(Computing[5]);
    assert KeyIsLower(Computing[6]);
  }

  lemma LiteratureKeysLower()
    ensures AllEntries(Literature, KeyIsLower)
  {
    LiteratureFirstKeysLower();
    LiteratureLastKeysLower();
  }

  lemma LiteratureFirstKeysLower()
    ensures KeyIsLower(Literature[0]) && KeyIsLower(Literature[1])
  {
    assert KeyIsLower(Literature[0]);
  }

  lemma LiteratureLastKeysLower()
    ensures KeyIsLower(Literature[2]) && KeyIsLower(Literature[3])
  {
    assert KeyIsLower(Literature[2]);
  }

  lemma SciencesKeysLower()
    ensures AllEntries(Sciences, KeyIsLower)
  {
    SciencesFirstKeysLower();
    SciencesLastKeysLower();
  }

  lemma SciencesFirstKeysLower()
    ensures forall i :: 0 <= i < 4 ==> KeyIsLower(Sciences[i])
  {
    assert KeyIsLower(Sciences[0]);
    assert KeyIsLower(Sciences[1]);
    assert KeyIsLower(Sciences[2]);
    assert KeyIsLower(Sciences[3]);
  }

  lemma SciencesLastKeysLower()
    ensures forall i :: 4 <= i < 8 ==> KeyIsLower(Sciences[i])
  {
    assert KeyIsLower(Sciences[4]);
    assert KeyIsLower(Sciences[5]);
    assert KeyIsLower(Sciences[6]);
    assert KeyIsLower(Sciences[7]);
  }

  lemma SocialSciencesKeysLower()
    ensures AllEntries(SocialSciences, KeyIsLower)
  {
    assert KeyIsLower(SocialSciences[0]);
    assert KeyIsLower(SocialSciences[1]);
    assert KeyIsLower(SocialSciences[2]);
    assert KeyIsLower(SocialSciences[3]);
  }

  lemma ArtsKeysLower()
    ensures AllEntries(Arts, KeyIsLower)
  {
    assert KeyIsLower(Arts[0]);
    assert KeyIsLower(Arts[1]);
    assert KeyIsLower(Arts[2]);
  }

  lemma EngineeringKeysLower()
    ensures AllEntries(Engineering, KeyIsLower)
  {
    assert KeyIsLower(Engineering[0]);
    assert KeyIsLower(Engineering[1]);
  }

  /** Every key is lower-case, as the lower-cased tokens looked up against it are. */
  lemma TableKeysLower()
    ensures forall i :: 0 <= i < |Table| ==> Strings.IsLowerString(Table[i].key)
  {
    ComputingKeysLower();
    LiteratureKeysLower();
    SciencesKeysLower();
    SocialSciencesKeysLower();
    ArtsKeysLower();
    EngineeringKeysLower();
    AllTableEntries(KeyIsLower);
  }

  /** Every entry whose list mentions t has its key in ks. */
  predicate ListedOnlyUnder(ix: Index, t: string, ks: set<string>) {
    forall i :: 0 <= i < |ix| && t in ix[i].terms ==> ix[i].key in ks
  }

  lemma ListedOnlyUnderConcat(a: Index, b: Index, t: string, ks: set<string>)
    requires ListedOnlyUnder(a, t, ks) && ListedOnlyUnder(b, t, ks)
    ensures ListedOnlyUnder(a + b, t, ks)
  {
    forall i | 0 <= i < |a + b| && t in (a + b)[i].terms ensures (a + b)[i].key in ks {
      if i < |a| {
        assert (a + b)[i] == a[i];
      } else {
        assert (a + b)[i] == b[i - |a|];
      }
    }
  }

  const AiKeys: set<string> := {"computer science", "machine learning", "data science", "robotics"}

  lemma ComputingQuantumListings()
    ensures ListedOnlyUnder(Computing, "quantum computing", {})
  {
  }

  lemma LiteratureQuantumListings()
    ensures ListedOnlyUnder(Literature, "quantum computing", {})
  {
  }

  lemma SciencesQuantumListings()
    ensures ListedOnlyUnder(Sciences, "quantum computing", {})
  {
  }

  lemma SocialSciencesQuantumListings()
    ensures ListedOnlyUnder(SocialSciences, "quantum computing", {})
  {
  }

  lemma ArtsQuantumListings()
    ensures ListedOnlyUnder(Arts, "quantum computing", {})
  {
  }

  lemma EngineeringQuantumListings()
    ensures ListedOnlyUnder(Engineering, "quantum computing", {})
  {
  }

  lemma ComputingAiListings()
    ensures ListedOnlyUnder(Computing, "ai", AiKeys)
  {
  }

  lemma LiteratureAiListings()
    ensures ListedOnlyUnder(Literature, "ai", AiKeys)
  {
  }

  lemma SciencesAiListings()
    ensures ListedOnlyUnder(Sciences, "ai", AiKeys)
  {
  }

  lemma SocialSciencesAiListings()
    ensures ListedOnlyUnder(SocialSciences, "ai", AiKeys)
  {
  }

  lemma ArtsAiListings()
    ensures ListedOnlyUnder(Arts, "ai", AiKeys)
  {
  }

  lemma EngineeringAiListings()
    ensures ListedOnlyUnder(Engineering, "ai", AiKeys)
  {
  }

  lemma ComputingCsListings()
    ensures ListedOnlyUnder(Computing, "cs", {"computer science"})
  {
  }

  lemma LiteratureCsListings()
    ensures ListedOnlyUnder(Literature, "cs", {"computer science"})
  {
  }

  lemma SciencesCsListings()
    ensures ListedOnlyUnder(Sciences, "cs", {"computer science"})
  {
  }

  lemma SocialSciencesCsListings()
    ensures ListedOnlyUnder(SocialSciences, "cs", {"computer science"})
  {
  }

  lemma ArtsCsListings()
    ensures ListedOnlyUnder(Arts, "cs", {"computer science"})
  {
  }

  lemma EngineeringCsListings()
    ensures ListedOnlyUnder(Engineering, "cs", {"computer science"})
  {
  }

  lemma TableListedOnlyUnder(t: string, ks: set<string>)
    requires ListedOnlyUnder(Computing, t, ks) && ListedOnlyUnder(Literature, t, ks)
    requires ListedOnlyUnder(Sciences, t, ks) && ListedOnlyUnder(SocialSciences, t, ks)
    requires ListedOnlyUnder(Arts, t, ks) && ListedOnlyUnder(Engineering, t, ks)
    ensures ListedOnlyUnder(Table, t, ks)
  {
    ListedOnlyUnderConcat(Computing, Literature, t, ks);
    ListedOnlyUnderConcat(Computing + Literature, Sciences, t, ks);
    ListedOnlyUnderConcat(Computing + Literature + Sciences, SocialSciences, t, ks);
    ListedOnlyUnderConcat(Computing + Literature + Sciences + SocialSciences, Arts, t, ks);
    ListedOnlyUnderConcat(Computing + Literature + Sciences + SocialSciences + Arts, Engineering, t, ks);
  }

  lemma TableListings()
    ensures ListedOnlyUnder(Table, "quantum computing", {})
    ensures ListedOnlyUnder(Table, "ai", AiKeys)
    ensures ListedOnlyUnder(Table, "cs", {"computer science"})
  {
    ComputingQuantumListings();
    LiteratureQuantumListings();
    SciencesQuantumListings();
    SocialSciencesQuantumListings();
    ArtsQuantumListings();
    EngineeringQuantumListings();
    ComputingAiListings();
    LiteratureAiListings();
    SciencesAiListings();
    SocialSciencesAiListings();
    ArtsAiListings();
    EngineeringAiListings();
    ComputingCsListings();
    LiteratureCsListings();
    SciencesCsListings();
    SocialSciencesCsListings();
    ArtsCsListings();
    EngineeringCsListings();
    TableListedOnlyUnder("quantum computing", {});
    TableListedOnlyUnder("ai", AiKeys);
    TableListedOnlyUnder("cs", {"computer science"});
  }

  /** With distinct keys, an entry is identified by its key. */
  lemma KeyedAt(ix: Index, i: int, j: int)
    requires DistinctKeys(ix)
    requires 0 <= i < |ix| && 0 <= j < |ix| && ix[i].key == ix[j].key
    ensures i == j
  {
  }

  /** Looking up the key of any entry of the table finds that entry. */
  lemma TableLookup(i: int)
    requires 0 <= i < |Table|
    ensures Lookup(Table, Table[i].key) == Some(Table[i].terms)
  {
    TableKeysDistinct();
    LookupDistinct(Table, i);
  }

  /** The entry of the table keyed k sits at position i. */
  lemma TableKeyAt(i: int, j: int)
    requires 0 <= i < |Table| && 0 <= j < |Table| && Table[i].key == Table[j].key
    ensures i == j
  {
    TableKeysDistinct();
    KeyedAt(Table, i, j);
  }

  lemma ProgrammingEntry()
    ensures Table[0].key == "programming" && "coding" in Table[0].terms
  {
  }

  lemma CodingEntry()
    ensures Table[2].key == "coding" && "programming" in Table[2].terms
  {
  }

  lemma MathematicsEntry()
    ensures Table[11].key == "mathematics" && "probability" in Table[11].terms
  {
  }

  lemma StatisticsEntry()
    ensures Table[14].key == "statistics" && "stats" in Table[14].terms
  {
  }

  lemma ComputerScienceEntry()
    ensures Table[1].key == "computer science"
    ensures "cs" in Table[1].terms && "ai" in Table[1].terms
    ensures "artificial intelligence" !in Table[1].terms
  {
  }

  lemma AiEntry()
    ensures Table[3].key == "ai" && "artificial intelligence" in Table[3].terms
  {
  }

  lemma AiListers()
    ensures Table[4].key == "machine learning" && "ai" in Table[4].terms
    ensures Table[6].key == "data science" && "ai" in Table[6].terms
    ensures Table[27].key == "robotics" && "ai" in Table[27].terms
  {
  }

  lemma ProbabilityIsNoKey()
    ensures !IsKey(Table, "probability")
  {
  }

  lemma StatsIsNoKey()
    ensures !IsKey(Table, "stats")
  {
  }

  lemma CsIsNoKey()
    ensures !IsKey(Table, "cs")
  {
  }

  lemma QuantumComputingIsNoKey()
    ensures !IsKey(Table, "quantum computing")
  {
  }

  /** 'programming' lists 'coding' and 'coding' lists 'programming'. */
  lemma ProgrammingCodingMutual()
    ensures "coding" in Direct(Table, "programming")
    ensures "programming" in Direct(Table, "coding")
  {
    ProgrammingEntry();
    CodingEntry();
    TableLookup(0);
    TableLookup(2);
  }

  /** 'mathematics' lists 'probability', but 'probability' is not a key: it
      has no direct synonyms and reaches 'mathematics' only through reverse
      expansion. */
  lemma ProbabilityNotAKey()
    ensures "probability" in Direct(Table, "mathematics") && !IsKey(Table, "probability")
    ensures Direct(Table, "probability") == [] && "mathematics" in ExpandToken(Table, "probability")
  {
    MathematicsEntry();
    TableLookup(11);
    ProbabilityIsNoKey();
    ReverseIff(Table, "probability", "mathematics");
    assert ReverseRelated(Table, "probability", "mathematics");
  }

  /** 'statistics' lists 'stats', but 'stats' is not a key. */
  lemma StatsNotAKey()
    ensures "stats" in Direct(Table, "statistics") && !IsKey(Table, "stats")
    ensures Direct(Table, "stats") == [] && "statistics" in ExpandToken(Table, "stats")
  {
    StatisticsEntry();
    TableLookup(14);
    StatsIsNoKey();
    ReverseIff(Table, "stats", "statistics");
    assert ReverseRelated(Table, "stats", "statistics");
  }

  /** Exactly the keys 'computer science', 'machine learning', 'data science'
      and 'robotics' list 'ai'. */
  lemma AiListedUnder()
    ensures forall i :: 0 <= i < |Table| ==> ("ai" in Table[i].terms <==> Table[i].key in AiKeys)
  {
    TableListings();
    ComputerScienceEntry();
    AiListers();
    forall i | 0 <= i < |Table| && Table[i].key in AiKeys ensures "ai" in Table[i].terms {
      if Table[i].key == "computer science" {
        TableKeyAt(i, 1);
      } else if Table[i].key == "machine learning" {
        TableKeyAt(i, 4);
      } else if Table[i].key == "data science" {
        TableKeyAt(i, 6);
      } else {
        TableKeyAt(i, 27);
      }
    }
  }

  /** So the reverse expansion of 'ai' is the union of those four keys and their lists. */
  lemma AiReverseExpansion(x: string)
    ensures x in Reverse(Table, "ai") <==>
      exists i :: 0 <= i < |Table| && Table[i].key in AiKeys && (x == Table[i].key || x in Table[i].terms)
  {
    AiListedUnder();
    ReverseIff(Table, "ai", x);
  }

  /** A term the table neither keys nor lists expands to itself only. */
  lemma QuantumComputingExpandsToItself()
    ensures ExpandToken(Table, "quantum computing") == {"quantum computing"}
  {
    TableListings();
    QuantumComputingIsNoKey();
    UnknownTermExpandsToItself(Table, "quantum computing");
  }

  /** Expansion takes one hop only: 'cs' reaches 'ai', and 'ai' reaches
      'artificial intelligence', but 'cs' does not reach 'artificial intelligence'. */
  lemma ExpansionIsOneHop()
    ensures "ai" in ExpandToken(Table, "cs")
    ensures "artificial intelligence" in ExpandToken(Table, "ai")
    ensures "artificial intelligence" !in ExpandToken(Table, "cs")
  {
    CsReachesAi();
    AiReachesArtificialIntelligence();
    CsMissesArtificialIntelligence();
  }

  lemma CsReachesAi()
    ensures "ai" in ExpandToken(Table, "cs")
  {
    ComputerScienceEntry();
    CsIsNoKey();
    ReverseIff(Table, "cs", "ai");
  }

  lemma AiReachesArtificialIntelligence()
    ensures "artificial intelligence" in ExpandToken(Table, "ai")
  {
    AiEntry();
    TableLookup(3);
  }

  lemma CsMissesArtificialIntelligence()
    ensures "artificial intelligence" !in ExpandToken(Table, "cs")
  {
    TableListings();
    ComputerScienceEntry();
    CsIsNoKey();
    ReverseIff(Table, "cs", "artificial intelligence");
    if ReverseRelated(Table, "cs", "artificial intelligence") {
      var i :| 0 <= i < |Table| && "cs" in Table[i].terms
        && ("artificial intelligence" == Table[i].key || "artificial intelligence" in Table[i].terms);
      TableKeyAt(i, 1);
    }
  }
}
