/**
  The string primitives the application relies on, restricted to what the
  matching and search rules use: ASCII lower-casing (toLowerCase), trimming a
  fixed set of whitespace characters (trim), substring search (includes) and
  splitting on one separator character (split), together with its inverse join.
 */
module Strings {

  /** The whitespace characters trim() strips, restricted to ASCII. */
  predicate IsSpace(c: char) {
    c == ' ' || c == '\t' || c == '\n' || c == '\r' || c == '\U{000B}' || c == '\U{000C}'
  }

  predicate IsUpper(c: char) {
    'A' <= c <= 'Z'
  }

  function LowerChar(c: char): (r: char)
    ensures !IsUpper(r)
    ensures IsUpper(c) ==> r as int == c as int + 32
    ensures !IsUpper(c) ==> r == c
  {
    if IsUpper(c) then (c as int + 32) as char else c
  }

  /** No upper-case ASCII letter anywhere in s. */
  predicate IsLowerString(s: string) {
    forall i :: 0 <= i < |s| ==> !IsUpper(s[i])
  }

  /** toLowerCase, ASCII only. */
  function Lower(s: string): (r: string)
    ensures |r| == |s|
    ensures IsLowerString(r)
    ensures forall i :: 0 <= i < |s| ==> r[i] == LowerChar(s[i])
  {
    if |s| == 0 then "" else [LowerChar(s[0])] + Lower(s[1..])
  }

  lemma LowerOfLower(s: string)
    requires IsLowerString(s)
    ensures Lower(s) == s
  {
  }

  lemma LowerEmpty(s: string)
    ensures Lower(s) == "" <==> s == ""
  {
  }

  /** Number of leading whitespace characters of s. */
  function LeadingSpaces(s: string): (k: nat)
    ensures k <= |s|
    ensures forall i :: 0 <= i < k ==> IsSpace(s[i])
    ensures k < |s| ==> !IsSpace(s[k])
  {
    if |s| == 0 || !IsSpace(s[0]) then 0 else 1 + LeadingSpaces(s[1..])
  }

  /** Length of s without its trailing whitespace. */
  function EndOfText(s: string): (k: nat)
    ensures k <= |s|
    ensures forall i :: k <= i < |s| ==> IsSpace(s[i])
    ensures k > 0 ==> !IsSpace(s[k - 1])
  {
    if |s| == 0 || !IsSpace(s[|s| - 1]) then |s| else EndOfText(s[..|s| - 1])
  }

  /** s neither starts nor ends with whitespace. */
  predicate IsTrimmed(s: string) {
    |s| == 0 || (!IsSpace(s[0]) && !IsSpace(s[|s| - 1]))
  }

  /** r is the slice of s starting at a, and everything outside it is whitespace. */
  predicate IsCore(s: string, r: string, a: int) {
    && 0 <= a <= |s| - |r|
    && r == s[a..a + |r|]
    && (forall i :: 0 <= i < a ==> IsSpace(s[i]))
    && (forall i :: a + |r| <= i < |s| ==> IsSpace(s[i]))
  }

  /** trim(): the slice of s between its leading and its trailing whitespace. */
  function Trim(s: string): (r: string)
    ensures IsTrimmed(r)
    ensures |r| <= |s|
    ensures exists a :: IsCore(s, r, a)
  {
    var a := LeadingSpaces(s);
    var rest := s[a..];
    var b := EndOfText(rest);
    assert forall i :: a + b <= i < |s| ==> IsSpace(s[i]) by {
      forall i | a + b <= i < |s| ensures IsSpace(s[i]) {
        assert s[i] == rest[i - a];
      }
    }
    assert IsCore(s, rest[..b], a);
    rest[..b]
  }

  lemma TrimOfTrimmed(s: string)
    requires IsTrimmed(s)
    ensures Trim(s) == s
  {
    if |s| > 0 {
      assert LeadingSpaces(s) == 0;
      assert EndOfText(s) == |s|;
    }
  }

  /** Trimming is idempotent. */
  lemma TrimIdempotent(s: string)
    ensures Trim(Trim(s)) == Trim(s)
  {
    TrimOfTrimmed(Trim(s));
  }

  /** trim() yields "" exactly for strings made only of whitespace. */
  lemma {:induction false} TrimEmptyIff(s: string)
    ensures Trim(s) == "" <==> forall i :: 0 <= i < |s| ==> IsSpace(s[i])
  {
    var a := LeadingSpaces(s);
    if a < |s| {
      assert !IsSpace(s[a]);
      var rest := s[a..];
      assert rest[0] == s[a];
      assert EndOfText(rest) > 0;
    }
  }

  /** String.prototype.includes: needle occurs in hay. */
  predicate Contains(hay: string, needle: string)
    decreases |hay|
  {
    needle <= hay || (|hay| > 0 && Contains(hay[1..], needle))
  }

  /** needle occurs in hay starting at index i. */
  predicate OccursAt(hay: string, needle: string, i: int) {
    0 <= i <= |hay| - |needle| && hay[i..i + |needle|] == needle
  }

  lemma OccursInTail(hay: string, needle: string, i: int)
    requires |hay| > 0 && i != 0 && OccursAt(hay, needle, i)
    ensures OccursAt(hay[1..], needle, i - 1)
  {
    assert hay[1..][i - 1..i - 1 + |needle|] == hay[i..i + |needle|];
  }

  lemma OccursBehindHead(hay: string, needle: string, j: int)
    requires |hay| > 0 && OccursAt(hay[1..], needle, j)
    ensures OccursAt(hay, needle, j + 1)
  {
    assert hay[1..][j..j + |needle|] == hay[j + 1..j + 1 + |needle|];
  }

  /** includes() is exactly "some slice of hay equals needle". */
  lemma {:induction false} ContainsIff(hay: string, needle: string)
    ensures Contains(hay, needle) <==> exists i :: OccursAt(hay, needle, i)
    decreases |hay|
  {
    if needle <= hay {
      assert OccursAt(hay, needle, 0);
    } else if |hay| > 0 {
      ContainsIff(hay[1..], needle);
      if exists i :: OccursAt(hay, needle, i) {
        var i :| OccursAt(hay, needle, i);
        assert i != 0;
        OccursInTail(hay, needle, i);
      }
      if Contains(hay[1..], needle) {
        var j :| OccursAt(hay[1..], needle, j);
        OccursBehindHead(hay, needle, j);
      }
    }
  }

  /** The empty string is contained in every string. */
  lemma ContainsEmpty(hay: string)
    ensures Contains(hay, "")
  {
  }

  lemma ContainsSelf(s: string)
    ensures Contains(s, s)
  {
  }

  /** The two-way substring rule of the matcher: one side includes the other. */
  predicate Related(a: string, b: string) {
    Contains(a, b) || Contains(b, a)
  }

  /** join(sep): the pieces with one separator between neighbours. */
  function Join(pieces: seq<string>, sep: char): string
  {
    if |pieces| == 0 then ""
    else if |pieces| == 1 then pieces[0]
    else pieces[0] + [sep] + Join(pieces[1..], sep)
  }

  /** split(sep) on a one-character separator: never empty, pieces are
      separator-free, and joining them back gives the input. */
  function Split(s: string, sep: char): (r: seq<string>)
    ensures |r| >= 1
    ensures forall i :: 0 <= i < |r| ==> sep !in r[i]
    ensures Join(r, sep) == s
    ensures |r| == 1 <==> sep !in s
  {
    if |s| == 0 then [""]
    else if s[0] == sep then [""] + Split(s[1..], sep)
    else
      var rest := Split(s[1..], sep);
      assert s == [s[0]] + s[1..];
      [[s[0]] + rest[0]] + rest[1..]
  }

  /** Splitting a separator-free piece followed by the separator peels that piece off. */
  lemma {:induction false} SplitAfterPiece(w: string, t: string, sep: char)
    requires sep !in w
    ensures Split(w + [sep] + t, sep) == [w] + Split(t, sep)
    decreases |w|
  {
    var s := w + [sep] + t;
    if |w| == 0 {
      assert s[0] == sep && s[1..] == t;
    } else {
      assert s[0] == w[0] && s[0] != sep;
      assert s[1..] == w[1..] + [sep] + t;
      SplitAfterPiece(w[1..], t, sep);
      assert [w[0]] + w[1..] == w;
    }
  }

  /** split undoes join on separator-free pieces. */
  lemma {:induction false} SplitJoin(pieces: seq<string>, sep: char)
    requires |pieces| >= 1
    requires forall i :: 0 <= i < |pieces| ==> sep !in pieces[i]
    ensures Split(Join(pieces, sep), sep) == pieces
  {
    if |pieces| == 1 {
      var r := Split(pieces[0], sep);
      assert |r| == 1;
    } else {
      SplitJoin(pieces[1..], sep);
      SplitAfterPiece(pieces[0], Join(pieces[1..], sep), sep);
      assert [pieces[0]] + pieces[1..] == pieces;
    }
  }

  /** Joining two non-empty piece lists puts one separator between their joins. */
  lemma {:induction false} JoinConcat(x: seq<string>, y: seq<string>, sep: char)
    requires |x| >= 1 && |y| >= 1
    ensures Join(x + y, sep) == Join(x, sep) + [sep] + Join(y, sep)
    decreases |x|
  {
    if |x| > 1 {
      assert (x + y)[1..] == x[1..] + y;
      JoinConcat(x[1..], y, sep);
    } else {
      assert (x + y)[0] == x[0] && (x + y)[1..] == y;
    }
  }

  /** Splitting at a separator between two strings splits each side on its own. */
  lemma SplitAtSeparator(a: string, b: string, sep: char)
    ensures Split(a + [sep] + b, sep) == Split(a, sep) + Split(b, sep)
  {
    var x, y := Split(a, sep), Split(b, sep);
    JoinConcat(x, y, sep);
    SepFreeConcat(x, y, sep);
    SplitJoin(x + y, sep);
  }

  lemma SepFreeConcat(x: seq<string>, y: seq<string>, sep: char)
    requires forall i :: 0 <= i < |x| ==> sep !in x[i]
    requires forall i :: 0 <= i < |y| ==> sep !in y[i]
    ensures forall i :: 0 <= i < |x + y| ==> sep !in (x + y)[i]
  {
    forall i | 0 <= i < |x + y| ensures sep !in (x + y)[i] {
      if i < |x| {
        assert (x + y)[i] == x[i];
      } else {
        assert (x + y)[i] == y[i - |x|];
      }
    }
  }

  /** Trimming keeps lower case: its result is a slice of its input. */
  lemma TrimLower(s: string)
    requires IsLowerString(s)
    ensures IsLowerString(Trim(s))
  {
    var r := Trim(s);
    var a :| IsCore(s, r, a);
    forall i | 0 <= i < |r| ensures !IsUpper(r[i]) {
      assert r[i] == s[a + i];
    }
  }

  /** Trimming introduces no character. */
  lemma TrimAvoids(s: string, c: char)
    requires c !in s
    ensures c !in Trim(s)
  {
    var r := Trim(s);
    var a :| IsCore(s, r, a);
    forall i | 0 <= i < |r| ensures r[i] != c {
      assert r[i] == s[a + i];
    }
  }

  /** Joining lower-case pieces with a non-letter separator stays lower-case. */
  lemma {:induction false} JoinLower(pieces: seq<string>, sep: char)
    requires !IsUpper(sep)
    requires forall i :: 0 <= i < |pieces| ==> IsLowerString(pieces[i])
    ensures IsLowerString(Join(pieces, sep))
  {
    if |pieces| > 1 {
      JoinLower(pieces[1..], sep);
      var rest := Join(pieces[1..], sep);
      var j := Join(pieces, sep);
      assert j == pieces[0] + [sep] + rest;
      forall i | 0 <= i < |j| ensures !IsUpper(j[i]) {
        if i < |pieces[0]| {
          assert j[i] == pieces[0][i];
        } else if i > |pieces[0]| {
          assert j[i] == rest[i - |pieces[0]| - 1];
        }
      }
    }
  }

  /** An occurrence of a slice of needle, inside an occurrence of needle. */
  lemma OccursInside(hay: string, needle: string, i: int, part: string, a: int)
    requires OccursAt(hay, needle, i) && OccursAt(needle, part, a)
    ensures OccursAt(hay, part, i + a)
  {
    forall m | 0 <= m < |part| ensures hay[i + a + m] == part[m] {
      assert part[m] == needle[a + m];
      assert needle[a + m] == hay[i + a + m];
    }
  }

  /** An occurrence that starts and ends on non-whitespace lies inside the core. */
  lemma OccursInCore(hay: string, core: string, c: int, part: string, k: int)
    requires IsCore(hay, core, c) && OccursAt(hay, part, k)
    requires |part| > 0 && !IsSpace(part[0]) && !IsSpace(part[|part| - 1])
    ensures OccursAt(core, part, k - c)
  {
    assert hay[k] == part[0];
    assert hay[k + |part| - 1] == part[|part| - 1];
    forall m | 0 <= m < |part| ensures core[k - c + m] == part[m] {
      assert core[k - c + m] == hay[k + m];
    }
  }

  /** The step of ContainsTrimmed for a needle with a non-blank core: the
      core's occurrence inside the needle's occurrence lies inside the hay's
      core. */
  lemma ContainsCoreInCore(hay: string, needle: string, i: int, tn: string, a: int, th: string, c: int)
    requires OccursAt(hay, needle, i) && IsCore(needle, tn, a) && IsCore(hay, th, c)
    requires |tn| > 0 && IsTrimmed(tn)
    ensures Contains(th, tn)
  {
    assert OccursAt(needle, tn, a);
    OccursInside(hay, needle, i, tn, a);
    OccursInCore(hay, th, c, tn, i + a);
    ContainsIff(th, tn);
  }

  /** If hay includes needle, the trimmed hay includes the trimmed needle:
      the needle's core starts and ends on non-whitespace, so its occurrence
      lies inside the hay's core. */
  lemma ContainsTrimmed(hay: string, needle: string)
    requires Contains(hay, needle)
    ensures Contains(Trim(hay), Trim(needle))
  {
    var tn := Trim(needle);
    var th := Trim(hay);
    if |tn| == 0 {
      ContainsEmpty(th);
    } else {
      ContainsIff(hay, needle);
      var i :| OccursAt(hay, needle, i);
      var a :| IsCore(needle, tn, a);
      var c :| IsCore(hay, th, c);
      ContainsCoreInCore(hay, needle, i, tn, a, th, c);
    }
  }

  /** Appending the separator adds one more, empty, piece. */
  lemma SplitTrailingSeparator(s: string, sep: char)
    ensures Split(s + [sep], sep) == Split(s, sep) + [""]
  {
    var pieces := Split(s, sep) + [""];
    JoinSnocEmpty(Split(s, sep), sep);
    assert forall i :: 0 <= i < |pieces| ==> sep !in pieces[i] by {
      forall i | 0 <= i < |pieces| ensures sep !in pieces[i] {
        if i < |pieces| - 1 {
          assert pieces[i] == Split(s, sep)[i];
        }
      }
    }
    SplitJoin(pieces, sep);
  }

  /** Joining one more, empty, piece appends a separator. */
  lemma {:induction false} JoinSnocEmpty(pieces: seq<string>, sep: char)
    requires |pieces| >= 1
    ensures Join(pieces + [""], sep) == Join(pieces, sep) + [sep]
  {
    if |pieces| == 1 {
      assert (pieces + [""])[1..] == [""];
    } else {
      assert (pieces + [""])[1..] == pieces[1..] + [""];
      JoinSnocEmpty(pieces[1..], sep);
    }
  }

  lemma LowerConcat(a: string, b: string)
    ensures Lower(a + b) == Lower(a) + Lower(b)
  {
    var x, y := Lower(a + b), Lower(a) + Lower(b);
    assert |x| == |y|;
    forall i | 0 <= i < |x| ensures x[i] == y[i] {
      if i < |a| {
        assert (a + b)[i] == a[i] && y[i] == Lower(a)[i];
      } else {
        assert (a + b)[i] == b[i - |a|] && y[i] == Lower(b)[i - |a|];
      }
    }
  }
}
