/**
  Compatibility scoring (getMatchScore in views/Match.tsx). Each of five
  criteria passes or fails; study interest counts three times, the other four
  once, so a score is a weight w in [0, 7] and the percentage shown is 100w/7.
  All comparisons against a percentage are made on the integer weight.
 */
module Scoring {
  import opened Strings
  import opened Synonyms
  import opened Types

  /** One side's interest tokens: the field lower-cased, split on commas and
      each piece trimmed. */
  function Tokens(s: string): (r: seq<string>)
    ensures |r| >= 1
    ensures forall i :: 0 <= i < |r| ==> IsTrimmed(r[i]) && IsLowerString(r[i]) && ',' !in r[i]
  {
    var pieces := Split(Lower(s), ',');
    assert forall i :: 0 <= i < |pieces| ==> IsLowerString(pieces[i]) by {
      forall i | 0 <= i < |pieces| ensures IsLowerString(pieces[i]) {
        PieceLower(Lower(s), pieces, i);
      }
    }
    assert forall i :: 0 <= i < |pieces| ==> IsLowerString(Trim(pieces[i])) && ',' !in Trim(pieces[i]) by {
      forall i | 0 <= i < |pieces| ensures IsLowerString(Trim(pieces[i])) && ',' !in Trim(pieces[i]) {
        TrimLower(pieces[i]);
        TrimAvoids(pieces[i], ',');
      }
    }
    seq(|pieces|, i requires 0 <= i < |pieces| => Trim(pieces[i]))
  }

  /** Every piece split from a lower-case string is lower-case. */
  lemma PieceLower(s: string, pieces: seq<string>, i: int)
    requires IsLowerString(s) && pieces == Split(s, ',') && 0 <= i < |pieces|
    ensures IsLowerString(pieces[i])
  {
    JoinPieceLower(pieces, i);
  }

  /** A piece of a lower-case join is lower-case. */
  lemma {:induction false} JoinPieceLower(pieces: seq<string>, i: int)
    requires 0 <= i < |pieces| && IsLowerString(Join(pieces, ','))
    ensures IsLowerString(pieces[i])
  {
    if |pieces| > 1 {
      var rest := Join(pieces[1..], ',');
      var j := Join(pieces, ',');
      assert j == pieces[0] + [','] + rest;
      if i == 0 {
        forall k | 0 <= k < |pieces[0]| ensures !IsUpper(pieces[0][k]) {
          assert pieces[0][k] == j[k];
        }
      } else {
        forall k | 0 <= k < |rest| ensures !IsUpper(rest[k]) {
          assert rest[k] == j[|pieces[0]| + 1 + k];
        }
        JoinPieceLower(pieces[1..], i - 1);
      }
    }
  }

  /** Tokenising undoes joining with commas, for tokens already in the form
      tokenising produces. */
  lemma TokensOfJoin(tokens: seq<string>)
    requires |tokens| >= 1
    requires forall i :: 0 <= i < |tokens| ==> IsTrimmed(tokens[i]) && IsLowerString(tokens[i]) && ',' !in tokens[i]
    ensures Tokens(Join(tokens, ',')) == tokens
  {
    var s := Join(tokens, ',');
    JoinLower(tokens, ',');
    LowerOfLower(s);
    SplitJoin(tokens, ',');
    forall i | 0 <= i < |tokens| ensures Tokens(s)[i] == tokens[i] {
      TrimOfTrimmed(tokens[i]);
    }
  }

  lemma LowerTrailingComma(s: string)
    ensures Lower(s + ",") == Lower(s) + [',']
  {
    LowerConcat(s, ",");
    assert Lower(",") == ",";
  }

  /** An empty comma piece gives an empty token. */
  lemma EmptyPieceGivesEmptyToken(s: string, k: int)
    requires 0 <= k < |Split(Lower(s), ',')| && Split(Lower(s), ',')[k] == ""
    ensures "" in Tokens(s)
  {
    assert |Trim("")| == 0;
    assert Tokens(s)[k] == "";
  }

  /** A field ending in a comma has an empty last token. */
  lemma TrailingCommaGivesEmptyToken(s: string)
    ensures "" in Tokens(s + ",")
  {
    LowerTrailingComma(s);
    SplitTrailingSeparator(Lower(s), ',');
    var pieces := Split(Lower(s) + [','], ',');
    EmptyPieceGivesEmptyToken(s + ",", |pieces| - 1);
  }

  /** The study criterion on token lists and a synonym table: the viewer has
      a token, and some term of the viewer's expanded interests and some
      candidate token include one another. */
  predicate InterestsMatch(ix: Index, mine: seq<string>, theirs: seq<string>) {
    |mine| > 0 && exists x, j :: x in Expand(ix, mine) && 0 <= j < |theirs| && Related(x, theirs[j])
  }

  /** The study criterion of getMatchScore, against INTEREST_SYNONYMS. */
  predicate StudyMatch(viewer: string, candidate: string) {
    InterestsMatch(Table, Tokens(viewer), Tokens(candidate))
  }

  /** Study passes exactly when some viewer token contributes a term related
      to some candidate token. */
  lemma InterestsMatchIff(ix: Index, mine: seq<string>, theirs: seq<string>)
    ensures InterestsMatch(ix, mine, theirs) <==>
      exists i, x, j :: 0 <= i < |mine| && x in ExpandToken(ix, mine[i])
        && 0 <= j < |theirs| && Related(x, theirs[j])
  {
    if InterestsMatch(ix, mine, theirs) {
      var x, j :| x in Expand(ix, mine) && 0 <= j < |theirs| && Related(x, theirs[j]);
      ExpandOnlyContributions(ix, mine, x);
      var i :| 0 <= i < |mine| && x in ExpandToken(ix, mine[i]);
      assert 0 <= i < |mine| && x in ExpandToken(ix, mine[i]) && 0 <= j < |theirs| && Related(x, theirs[j]);
    }
    if exists i, x, j :: 0 <= i < |mine| && x in ExpandToken(ix, mine[i]) && 0 <= j < |theirs| && Related(x, theirs[j]) {
      var i, x, j :| 0 <= i < |mine| && x in ExpandToken(ix, mine[i]) && 0 <= j < |theirs| && Related(x, theirs[j]);
      assert x in Expand(ix, mine);
    }
  }

  /** An empty token on either side always passes (when the candidate has a
      token at all), since the empty string is included in every string. */
  lemma EmptyTokenPasses(ix: Index, mine: seq<string>, theirs: seq<string>)
    requires |mine| > 0 && |theirs| > 0
    requires "" in mine || "" in theirs
    ensures InterestsMatch(ix, mine, theirs)
  {
    if "" in theirs {
      var j :| 0 <= j < |theirs| && theirs[j] == "";
      assert mine[0] in ExpandToken(ix, mine[0]);
      assert mine[0] in Expand(ix, mine);
      ContainsEmpty(mine[0]);
      assert Related(mine[0], theirs[j]);
    } else {
      var i :| 0 <= i < |mine| && mine[i] == "";
      assert "" in ExpandToken(ix, mine[i]);
      assert "" in Expand(ix, mine);
      ContainsEmpty(theirs[0]);
      assert Related("", theirs[0]);
    }
  }

  /** A viewer with an empty interest field matches every candidate on study. */
  lemma EmptyInterestPasses(candidate: string)
    ensures StudyMatch("", candidate)
  {
    assert Tokens("")[0] == "";
    EmptyTokenPasses(Table, Tokens(""), Tokens(candidate));
  }

  /** A field ending in a comma matches every candidate on study. */
  lemma TrailingCommaPasses(viewer: string, candidate: string)
    ensures StudyMatch(viewer + ",", candidate)
  {
    TrailingCommaGivesEmptyToken(viewer);
    EmptyTokenPasses(Table, Tokens(viewer + ","), Tokens(candidate));
  }

  /** A viewer token that the table lists a candidate token under passes study. */
  lemma ListedSynonymPasses(ix: Index, mine: seq<string>, theirs: seq<string>, key: string, term: string)
    requires key in mine && term in theirs
    requires term in Direct(ix, key)
    ensures InterestsMatch(ix, mine, theirs)
  {
    var i :| 0 <= i < |mine| && mine[i] == key;
    var j :| 0 <= j < |theirs| && theirs[j] == term;
    assert term in ExpandToken(ix, mine[i]);
    assert term in Expand(ix, mine);
    ContainsSelf(term);
    assert Related(term, theirs[j]);
  }

  /** Dream school, current school and major: both raw fields non-empty and
      their lower-cased, trimmed forms include one another. */
  predicate FieldMatch(mine: string, theirs: string) {
    mine != "" && theirs != "" && Related(Trim(Lower(mine)), Trim(Lower(theirs)))
  }

  /** Timeframe: both non-empty and either lower-cased side is "flexible" or
      one includes the other; nothing is trimmed. */
  predicate TimeMatch(mine: string, theirs: string) {
    && mine != "" && theirs != ""
    && (Lower(mine) == "flexible" || Lower(theirs) == "flexible" || Related(Lower(mine), Lower(theirs)))
  }

  /** Which of the five criteria pass. */
  datatype Breakdown = Breakdown(study: bool, dream: bool, current: bool, time: bool, major: bool)

  function Points(b: bool): nat {
    if b then 1 else 0
  }

  /** The weighted sum: study three times, each other criterion once. */
  function Weight(b: Breakdown): (w: nat)
    ensures w <= 7
    ensures b.study ==> w >= 3
    ensures !b.study ==> w <= 4
    ensures w == 7 <==> b.study && b.dream && b.current && b.time && b.major
    ensures w == 0 <==> !b.study && !b.dream && !b.current && !b.time && !b.major
  {
    3 * Points(b.study) + Points(b.dream) + Points(b.current) + Points(b.time) + Points(b.major)
  }

  /** The criteria of getMatchScore for the signed-in user against a profile. */
  function Criteria(u: User, p: Profile): Breakdown {
    Breakdown(
      StudyMatch(u.studyInterest, p.studyInterest),
      FieldMatch(u.dreamSchool, p.dreamSchool),
      FieldMatch(u.currentSchool, p.currentSchool),
      TimeMatch(u.preferredTimeframe, p.preferredTimeframe),
      FieldMatch(u.major, p.major))
  }

  /** getMatchScore's weighted sum: study interest counts three, dream
      school, current school, timeframe and major one each. */
  function MatchWeight(u: User, p: Profile): (w: nat)
    ensures w <= 7
    ensures StudyMatch(u.studyInterest, p.studyInterest) ==> w >= 3
    ensures !StudyMatch(u.studyInterest, p.studyInterest) ==> w <= 4
    ensures w == 7 <==>
      && StudyMatch(u.studyInterest, p.studyInterest)
      && FieldMatch(u.dreamSchool, p.dreamSchool) && FieldMatch(u.currentSchool, p.currentSchool)
      && TimeMatch(u.preferredTimeframe, p.preferredTimeframe) && FieldMatch(u.major, p.major)
    ensures w == 0 <==>
      && !StudyMatch(u.studyInterest, p.studyInterest)
      && !FieldMatch(u.dreamSchool, p.dreamSchool) && !FieldMatch(u.currentSchool, p.currentSchool)
      && !TimeMatch(u.preferredTimeframe, p.preferredTimeframe) && !FieldMatch(u.major, p.major)
  {
    Weight(Criteria(u, p))
  }

  /** The percentage getMatchScore returns for weight w. */
  function Percent(w: nat): real {
    (100 * w) as real / 7.0
  }

  /** The score compares with pct exactly as the integer test 100w >= 7pct does,
      and lies between 0 and 100. */
  lemma PercentExact(w: nat, pct: int)
    requires w <= 7
    ensures Percent(w) >= pct as real <==> 100 * w >= 7 * pct
    ensures 0.0 <= Percent(w) <= 100.0
  {
  }

  /** score >= pct, decided on the weight. */
  predicate ScoreAtLeast(w: nat, pct: int) {
    100 * w >= 7 * pct
  }

  /** The deck threshold: a score of at least 50 means study plus at least one
      other criterion, or all four others without study. */
  lemma ThresholdIff(b: Breakdown)
    ensures ScoreAtLeast(Weight(b), 50) <==>
      (b.study && (b.dream || b.current || b.time || b.major))
      || (!b.study && b.dream && b.current && b.time && b.major)
  {
  }

  /** A score of at least 50 is a weight of at least 4, and of at least 30 a
      weight of at least 3. */
  lemma ThresholdWeights(w: nat)
    ensures ScoreAtLeast(w, 50) <==> w >= 4
    ensures ScoreAtLeast(w, 30) <==> w >= 3
  {
  }

  /** The "Study" badge: the overall score is at least 30. */
  predicate StudyBadge(u: User, p: Profile) {
    ScoreAtLeast(MatchWeight(u, p), 30)
  }

  /** The study badge is shown exactly when the weight is at least 3: whenever
      study passes, and so for every profile that clears the deck threshold. */
  lemma StudyBadgeIff(u: User, p: Profile)
    ensures StudyBadge(u, p) <==> MatchWeight(u, p) >= 3
    ensures Criteria(u, p).study ==> StudyBadge(u, p)
    ensures ScoreAtLeast(MatchWeight(u, p), 50) ==> StudyBadge(u, p)
  {
  }

  /** The badge is not the study criterion: three other criteria are enough. */
  lemma StudyBadgeWithoutStudy()
    ensures var b := Breakdown(false, true, true, true, false);
      !b.study && ScoreAtLeast(Weight(b), 30)
  {
  }

  /** The Dream, School and Major badges: lower-cased, not trimmed. */
  predicate FieldBadge(mine: string, theirs: string) {
    mine != "" && theirs != "" && Related(Lower(mine), Lower(theirs))
  }

  /** A field badge implies its criterion. */
  lemma FieldBadgeImpliesMatch(mine: string, theirs: string)
    requires FieldBadge(mine, theirs)
    ensures FieldMatch(mine, theirs)
  {
    if Contains(Lower(mine), Lower(theirs)) {
      ContainsTrimmed(Lower(mine), Lower(theirs));
    } else {
      ContainsTrimmed(Lower(theirs), Lower(mine));
    }
  }

  /** Tokenising ignores case. */
  lemma TokensIgnoreCase(s: string)
    ensures Tokens(Lower(s)) == Tokens(s)
  {
    LowerOfLower(Lower(s));
  }

  lemma ProgrammingAiPieces()
    ensures Split("programming, ai", ',') == ["programming", " ai"]
  {
    SplitJoin(["programming", " ai"], ',');
    assert Join(["programming", " ai"], ',') == "programming, ai";
  }

  lemma ProgrammingAiTrimmed()
    ensures Trim(" ai") == "ai" && Trim("programming") == "programming"
  {
    assert LeadingSpaces(" ai") == 1;
    TrimOfTrimmed("programming");
  }

  lemma ProgrammingAiLower()
    ensures Lower("programming, ai") == "programming, ai"
  {
    LowerOfLower("programming, ai");
  }

  lemma ProgrammingAiTokens()
    ensures Tokens("programming, ai") == ["programming", "ai"]
  {
    ProgrammingAiLower();
    ProgrammingAiPieces();
    ProgrammingAiTrimmed();
  }

  lemma CodingTokens()
    ensures Tokens("coding") == ["coding"]
  {
    TokensOfJoin(["coding"]);
  }

  /** A viewer interested in "programming, ai" matches a candidate interested
      in "coding" on study, through the table's 'programming' entry. */
  lemma ProgrammingMatchesCoding()
    ensures StudyMatch("programming, ai", "coding")
  {
    ProgrammingAiTokens();
    CodingTokens();
    ProgrammingCodingMutual();
    ListedSynonymPasses(Table, Tokens("programming, ai"), Tokens("coding"), "programming", "coding");
  }

  lemma CapitalisedLower()
    ensures Lower("Programming, AI") == "programming, ai"
  {
    var a, b, c := "P", "rogramming, ", "AI";
    CapitalisedPieces();
    LowerConcat(a + b, c);
    LowerConcat(a, b);
    CapitalsLower();
    MiddleLower();
  }

  lemma CapitalisedPieces()
    ensures "Programming, AI" == "P" + "rogramming, " + "AI"
    ensures "p" + "rogramming, " + "ai" == "programming, ai"
  {
  }

  lemma CapitalsLower()
    ensures Lower("P") == "p" && Lower("AI") == "ai"
  {
    assert LowerChar('P') == 'p' && LowerChar('A') == 'a' && LowerChar('I') == 'i';
  }

  lemma MiddleLower()
    ensures Lower("rogramming, ") == "rogramming, "
  {
    LowerOfLower("rogramming, ");
  }

  /** Case does not matter: the capitalised "Programming, AI" passes study
      against "coding" just as the lower-case field does. */
  lemma CapitalisedProgrammingMatchesCoding()
    ensures StudyMatch("Programming, AI", "coding")
  {
    CapitalisedLower();
    TokensIgnoreCase("Programming, AI");
    ProgrammingMatchesCoding();
  }

  /** A raw field made only of whitespace is non-empty, so it is not skipped,
      yet trims to "": it matches every non-empty field. */
  lemma BlankFieldMatchesAll(mine: string, theirs: string)
    requires mine != "" && forall i :: 0 <= i < |mine| ==> IsSpace(mine[i])
    ensures FieldMatch(mine, theirs) <==> theirs != ""
  {
    TrimEmptyIff(Lower(mine));
    ContainsEmpty(Trim(Lower(theirs)));
  }

  /** Trimming either padded form of a word gives the word. */
  lemma TrimPadded(w: string)
    requires |w| > 0 && forall i :: 0 <= i < |w| ==> !IsSpace(w[i])
    ensures Trim([' '] + w) == w && Trim(w + [' ']) == w
  {
    var a := [' '] + w;
    assert a[1..] == w;
    assert LeadingSpaces(a) == 1;
    TrimOfTrimmed(w);
    var b := w + [' '];
    assert b[..|b| - 1] == w;
    assert EndOfText(b) == |w|;
  }

  /** A word padded on the left and the same word padded on the right: the
      same length, different first characters, so neither includes the other. */
  lemma PaddedUnrelated(w: string)
    requires |w| > 0 && !IsSpace(w[0])
    ensures !Related([' '] + w, w + [' '])
  {
    var a := [' '] + w;
    var b := w + [' '];
    assert a[0] != b[0];
    assert a != b;
    ContainsIff(a, b);
    ContainsIff(b, a);
    assert !OccursAt(a, b, 0) && !OccursAt(b, a, 0);
  }

  /** The converse of FieldBadgeImpliesMatch fails: the criterion trims, the
      badge does not, so a word padded on the left (" mit") against the same
      word padded on the right ("mit ") passes the criterion without the badge. */
  lemma FieldMatchWithoutBadge(w: string)
    requires |w| > 0 && IsLowerString(w) && forall i :: 0 <= i < |w| ==> !IsSpace(w[i])
    ensures FieldMatch([' '] + w, w + [' ']) && !FieldBadge([' '] + w, w + [' '])
  {
    LowerOfLower([' '] + w);
    LowerOfLower(w + [' ']);
    TrimPadded(w);
    ContainsSelf(w);
    PaddedUnrelated(w);
  }

  /** The timeframe criterion does not trim: the same two padded forms fail it. */
  lemma TimeNotTrimmed(w: string)
    requires |w| > 0 && IsLowerString(w) && forall i :: 0 <= i < |w| ==> !IsSpace(w[i])
    ensures !TimeMatch([' '] + w, w + [' '])
  {
    LowerOfLower([' '] + w);
    LowerOfLower(w + [' ']);
    PaddedUnrelated(w);
    assert ([' '] + w)[0] == ' ';
    assert (w + [' '])[|w|] == ' ';
  }

  /** "flexible" on either side, in any case, matches every non-empty timeframe. */
  lemma FlexibleMatchesAll(mine: string, theirs: string)
    requires Lower(mine) == "flexible" && theirs != ""
    ensures TimeMatch(mine, theirs) && TimeMatch(theirs, mine)
  {
  }
}
