/**
  The profile search of the header bar (components/Header.tsx): once the
  trimmed query has at least two characters, the profiles whose name, study
  interest, schools or major contain the lower-cased query.
 */
module Search {
  import opened Seqs
  import opened Strings
  import opened Types

  /** One profile against the already lower-cased query. Age and timeframe
      are not consulted. */
  predicate Hit(p: Profile, q: string) {
    Contains(Lower(p.name), q) ||
    Contains(Lower(p.studyInterest), q) ||
    Contains(Lower(p.currentSchool), q) ||
    Contains(Lower(p.dreamSchool), q) ||
    Contains(Lower(p.major), q)
  }

  /** Only the lower-cased fields are searched: a profile whose searched
      fields are lower-cased is hit by exactly the same queries. */
  lemma HitIgnoresFieldCase(p: Profile, q: string)
    ensures Hit(p, q) == Hit(p.(name := Lower(p.name), studyInterest := Lower(p.studyInterest),
      currentSchool := Lower(p.currentSchool), dreamSchool := Lower(p.dreamSchool), major := Lower(p.major)), q)
  {
    LowerOfLower(Lower(p.name));
    LowerOfLower(Lower(p.studyInterest));
    LowerOfLower(Lower(p.currentSchool));
    LowerOfLower(Lower(p.dreamSchool));
    LowerOfLower(Lower(p.major));
  }

  function HitsQuery(q: string): Profile -> bool {
    (p: Profile) => Hit(p, q)
  }

  /** The search effect: no results for a query shorter than two characters
      once trimmed; otherwise the profiles hit by the lower-cased query as
      typed, spaces included. */
  function SearchResults(profiles: seq<Profile>, query: string): (r: seq<Profile>)
    ensures |Trim(query)| <= 1 ==> r == []
    ensures forall p :: p in r <==> |Trim(query)| > 1 && p in profiles && Hit(p, Lower(query))
    ensures |r| <= |profiles|
  {
    if |Trim(query)| > 1 then
      FilterMembers(profiles, HitsQuery(Lower(query)));
      Filter(profiles, HitsQuery(Lower(query)))
    else []
  }

  /** Results keep the order of the profiles: searching a concatenation is
      concatenating the searches. */
  lemma SearchKeepsOrder(a: seq<Profile>, b: seq<Profile>, query: string)
    ensures SearchResults(a + b, query) == SearchResults(a, query) + SearchResults(b, query)
  {
    if |Trim(query)| > 1 {
      FilterConcat(a, b, HitsQuery(Lower(query)));
    }
  }

  /** Changing a profile's age or timeframe never changes whether it is
      found. */
  lemma SearchIgnoresAgeAndTimeframe(p: Profile, age: int, timeframe: string, query: string)
    ensures p.(age := age, preferredTimeframe := timeframe) in SearchResults([p.(age := age, preferredTimeframe := timeframe)], query)
        <==> p in SearchResults([p], query)
  {
  }

  lemma ContainsChar(hay: string, needle: string, c: char)
    requires Contains(hay, needle) && c in needle
    ensures c in hay
  {
    ContainsIff(hay, needle);
    var i :| OccursAt(hay, needle, i);
    var k :| 0 <= k < |needle| && needle[k] == c;
    assert hay[i + k] == c;
  }

  lemma LowerKeepsSpace(s: string)
    requires ' ' in Lower(s)
    ensures ' ' in s
  {
    var k :| 0 <= k < |Lower(s)| && Lower(s)[k] == ' ';
    assert s[k] == ' ';
  }

  /** The query is not trimmed: a query with a space never finds a profile
      whose searched fields have no space, however well the rest matches. */
  lemma SpacedQueryMissesUnspaced(p: Profile, query: string)
    requires ' ' in query
    requires ' ' !in p.name && ' ' !in p.studyInterest && ' ' !in p.currentSchool
    requires ' ' !in p.dreamSchool && ' ' !in p.major
    ensures p !in SearchResults([p], query)
  {
    var q := Lower(query);
    var k :| 0 <= k < |query| && query[k] == ' ';
    assert q[k] == ' ';
    if Hit(p, q) {
      var f :| f in [p.name, p.studyInterest, p.currentSchool, p.dreamSchool, p.major] && Contains(Lower(f), q);
      ContainsChar(Lower(f), q, ' ');
      LowerKeepsSpace(f);
      assert false;
    }
  }
}
