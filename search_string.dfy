/** `SearchString`: a display form kept together with a lower-cased search form,
    and the case-insensitive substring test built on it. Lower-casing is
    restricted to ASCII letters. */
module SearchStrings {

  /** ASCII lower-casing of one character; every other character is unchanged. */
  function LowerChar(c: char): (r: char)
    ensures 'A' <= c <= 'Z' ==> r as int == c as int + 32
    ensures !('A' <= c <= 'Z') ==> r == c
    ensures !('A' <= r <= 'Z')
  {
    if 'A' <= c <= 'Z' then (c as int + 32) as char else c
  }

  /** The lower-casing of a whole string, character by character. */
  function Lower(s: string): (r: string)
    ensures |r| == |s|
    ensures forall i :: 0 <= i < |s| ==> r[i] == LowerChar(s[i])
  {
    if s == [] then [] else Lower(s[..|s| - 1]) + [LowerChar(s[|s| - 1])]
  }

  /** Lower-casing twice is lower-casing once. */
  lemma LowerIdempotent(s: string)
    ensures Lower(Lower(s)) == Lower(s)
  {
    var l := Lower(s);
    assert forall i :: 0 <= i < |l| ==> LowerChar(l[i]) == l[i];
  }

  /** True when `needle` occurs in `hay` at position `i`. */
  predicate OccursAt(hay: string, needle: string, i: nat)
  {
    i + |needle| <= |hay| && hay[i..i + |needle|] == needle
  }

  /** `str::contains`: does `needle` occur somewhere in `hay`? Scans from the left. */
  function IsSubstring(hay: string, needle: string): bool
    decreases |hay|
  {
    if |needle| > |hay| then false
    else hay[..|needle|] == needle || IsSubstring(hay[1..], needle)
  }

  /** The scan finds exactly the positions where the needle occurs. */
  lemma {:induction false} IsSubstringIff(hay: string, needle: string)
    ensures IsSubstring(hay, needle) <==> exists i: nat :: OccursAt(hay, needle, i)
    decreases |hay|
  {
    if |needle| > |hay| {
      forall i: nat ensures !OccursAt(hay, needle, i) { }
    } else if hay[..|needle|] == needle {
      assert OccursAt(hay, needle, 0);
    } else {
      IsSubstringIff(hay[1..], needle);
      if IsSubstring(hay[1..], needle) {
        var i: nat :| OccursAt(hay[1..], needle, i);
        assert hay[i + 1..i + 1 + |needle|] == hay[1..][i..i + |needle|];
        assert OccursAt(hay, needle, i + 1);
      } else {
        forall i: nat | OccursAt(hay, needle, i) ensures false {
          if i != 0 {
            assert hay[1..][i - 1..i - 1 + |needle|] == hay[i..i + |needle|];
            assert OccursAt(hay[1..], needle, i - 1);
          }
        }
      }
    }
  }

  /** The empty query occurs in every string. */
  lemma EmptyIsSubstring(hay: string)
    ensures IsSubstring(hay, "")
  {
    IsSubstringIff(hay, "");
    assert OccursAt(hay, "", 0);
  }

  /** A display form and its lower-cased search form. */
  datatype SearchString = SearchString(display: string, search: string)

  /** The invariant every constructed value keeps: the search form is the
      lower-cased display form. */
  predicate Coherent(s: SearchString)
  {
    s.search == Lower(s.display)
  }

  /** `From<&str>`: keep the text for display, lower-case it for search. */
  function From(value: string): (r: SearchString)
    ensures Show(r) == value
    ensures Coherent(r)
    ensures Lower(r.search) == r.search
  {
    LowerIdempotent(value);
    SearchString(value, Lower(value))
  }

  /** `Display`: only the display form is written. */
  function Show(s: SearchString): string
  {
    s.display
  }

  /** Only the display form reaches the output: two values with the same
      display form show the same text, and a coherent value's shown text
      lower-cases to its search form. */
  lemma ShowDisplayOnly(s: SearchString, search: string)
    ensures Show(SearchString(s.display, search)) == Show(s)
    ensures Coherent(s) ==> Lower(Show(s)) == s.search
  {
  }

  /** `contains`: the other value's search form is a substring of this one's,
      that is, it occurs at some position of this one's search form. */
  predicate Contains(s: SearchString, other: SearchString)
    ensures Contains(s, other) <==> exists i: nat :: OccursAt(s.search, other.search, i)
  {
    IsSubstringIff(s.search, other.search);
    IsSubstring(s.search, other.search)
  }

  /** A coherent value contains a query exactly when the lower-cased query
      occurs somewhere in the lower-cased display text. */
  lemma ContainsQuery(s: SearchString, q: string)
    requires Coherent(s)
    ensures Contains(s, From(q)) <==> exists i: nat :: OccursAt(Lower(Show(s)), Lower(q), i)
  {
    var query := From(q);
    assert query.search == Lower(q);
    assert s.search == Lower(Show(s));
    IsSubstringIff(s.search, query.search);
  }

  /** Matching ignores the case of the query: a query and its lower-cased form
      match the same values. */
  lemma ContainsIgnoresQueryCase(s: SearchString, q: string)
    ensures Contains(s, From(Lower(q))) == Contains(s, From(q))
  {
    LowerIdempotent(q);
  }

  /** Matching ignores the case of the stored text as well. */
  lemma ContainsIgnoresTextCase(text: string, q: SearchString)
    ensures Contains(From(Lower(text)), q) == Contains(From(text), q)
  {
    LowerIdempotent(text);
  }

  /** The empty query matches every value. */
  lemma EmptyQueryMatches(s: SearchString)
    ensures Contains(s, From(""))
  {
    EmptyIsSubstring(s.search);
  }

  /** "First Light" is found by "first" and by "LIGHT", not by "second". */
  lemma MatchExample()
    ensures Contains(From("First Light"), From("first"))
    ensures Contains(From("First Light"), From("LIGHT"))
    ensures !Contains(From("First Light"), From("second"))
  {
    LowerExample();
    assert From("First Light").search == "first light";
    assert From("first").search == "first";
    assert From("LIGHT").search == "light";
    assert From("second").search == "second";
    SubstringExample();
  }

  lemma SubstringExample()
    ensures IsSubstring("first light", "first")
    ensures IsSubstring("first light", "light")
    ensures !IsSubstring("first light", "second")
  {
    var hay := "first light";
    assert hay[..5] == "first";
    IsSubstringIff(hay, "light");
    assert hay[6..11] == "light";
    assert OccursAt(hay, "light", 6);
    MissingCharNotSubstring(hay, "second", 1);
  }

  /** A query with a character the text lacks cannot occur in it. */
  lemma MissingCharNotSubstring(hay: string, needle: string, j: nat)
    requires j < |needle| && needle[j] !in hay
    ensures !IsSubstring(hay, needle)
  {
    IsSubstringIff(hay, needle);
  }

  lemma LowerExample()
    ensures Lower("First Light") == "first light"
    ensures Lower("first") == "first"
    ensures Lower("LIGHT") == "light"
    ensures Lower("second") == "second"
  {
    var a, b := Lower("First Light"), "first light";
    assert |a| == |b|;
    forall i | 0 <= i < |a| ensures a[i] == b[i] {
      assert a[i] == LowerChar("First Light"[i]);
    }
    var c := Lower("LIGHT");
    forall i | 0 <= i < |c| ensures c[i] == "light"[i] {
      assert c[i] == LowerChar("LIGHT"[i]);
    }
    var d := Lower("first");
    forall i | 0 <= i < |d| ensures d[i] == "first"[i] {
      assert d[i] == LowerChar("first"[i]);
    }
    var e := Lower("second");
    forall i | 0 <= i < |e| ensures e[i] == "second"[i] {
      assert e[i] == LowerChar("second"[i]);
    }
  }
}
