/** The seller search of `src/pages/StudentHome.jsx`. */
module SellerSearch {
  import opened Text

  /** The fields of a seller card the search looks at (price and rating are floats, left out). */
  datatype Seller = Seller(id: string, name: string, area: string)

  /** The filter's predicate: the term, lowercased, occurs in the lowercased name or area. */
  predicate Matches(s: Seller, term: string) {
    Includes(Lower(s.name), Lower(term)) || Includes(Lower(s.area), Lower(term))
  }

  /** `a` is `b` with some elements dropped, the rest kept in order. */
  predicate IsSubsequence<T(==)>(a: seq<T>, b: seq<T>)
    decreases |b|
  {
    a == [] || (|b| > 0 && ((a[0] == b[0] && IsSubsequence(a[1..], b[1..])) || IsSubsequence(a, b[1..])))
  }

  /** `sellers.filter(...)`: the matching sellers, in their original order. */
  function FilterSellers(sellers: seq<Seller>, term: string): (r: seq<Seller>)
    ensures |r| <= |sellers|
    ensures forall s :: s in r <==> s in sellers && Matches(s, term)
    ensures IsSubsequence(r, sellers)
    ensures |r| == |sellers| <==> forall i :: 0 <= i < |sellers| ==> Matches(sellers[i], term)
  {
    if sellers == [] then []
    else
      var rest := FilterSellers(sellers[1..], term);
      if Matches(sellers[0], term) then [sellers[0]] + rest else rest
  }

  /** Duplicates are not collapsed: every copy of a matching seller is kept, and no copy of another. */
  lemma {:induction false} FilterKeepsEveryMatchingCopy(sellers: seq<Seller>, term: string, s: Seller)
    ensures multiset(FilterSellers(sellers, term))[s] == if Matches(s, term) then multiset(sellers)[s] else 0
    decreases |sellers|
  {
    if sellers != [] {
      var head, tail := sellers[0], sellers[1..];
      var rest := FilterSellers(tail, term);
      assert sellers == [head] + tail;
      FilterKeepsEveryMatchingCopy(tail, term, s);
      CountCons(head, tail, s);
      if Matches(head, term) {
        assert FilterSellers(sellers, term) == [head] + rest;
        CountCons(head, rest, s);
      } else {
        assert FilterSellers(sellers, term) == rest;
      }
    }
  }

  /** Counting an element in a sequence with one more element in front. */
  lemma CountCons(x: Seller, xs: seq<Seller>, s: Seller)
    ensures multiset([x] + xs)[s] == (if x == s then 1 else 0) + multiset(xs)[s]
  {
    assert multiset([x] + xs) == multiset{x} + multiset(xs);
  }

  /** An empty search box shows every seller. */
  lemma {:induction false} EmptyTermKeepsAll(sellers: seq<Seller>)
    ensures FilterSellers(sellers, "") == sellers
    decreases |sellers|
  {
    if sellers != [] {
      IncludesEmpty(Lower(sellers[0].name));
      EmptyTermKeepsAll(sellers[1..]);
    }
  }

  /** The result depends on the term only through its lowercase form. */
  lemma {:induction false} FilterDependsOnLowercaseTerm(sellers: seq<Seller>, t1: string, t2: string)
    requires Lower(t1) == Lower(t2)
    ensures FilterSellers(sellers, t1) == FilterSellers(sellers, t2)
    decreases |sellers|
  {
    if sellers != [] {
      FilterDependsOnLowercaseTerm(sellers[1..], t1, t2);
    }
  }

  /** Typing the term in upper or lower case gives the same sellers. */
  lemma FilterIgnoresTermCase(sellers: seq<Seller>, term: string)
    ensures FilterSellers(sellers, Upper(term)) == FilterSellers(sellers, term)
    ensures FilterSellers(sellers, Lower(term)) == FilterSellers(sellers, term)
  {
    LowerOfUpper(term);
    LowerIdempotent(term);
    FilterDependsOnLowercaseTerm(sellers, Upper(term), term);
    FilterDependsOnLowercaseTerm(sellers, Lower(term), term);
  }

  /** The filter's predicate, in terms of where the term occurs. */
  lemma MatchesIffOccurs(s: Seller, term: string)
    ensures Matches(s, term) <==> OccursIn(Lower(s.name), Lower(term)) || OccursIn(Lower(s.area), Lower(term))
  {
    IncludesIff(Lower(s.name), Lower(term));
    IncludesIff(Lower(s.area), Lower(term));
  }
}
