/** The shop's catalogue helpers: the case-insensitive product search, the
    featured-products slice and the e-mail that the login call makes up for
    a username. The product list comes from the store API; here it is a
    parameter. */
module Catalog {
  import opened Strings

  /** A store product, without the price, image and rating the helpers
      never look at. */
  datatype Product = Product(id: int, title: string, description: string, category: string)

  /** The user record `loginUser` makes up (the API returns only a token). */
  datatype User = User(id: int, email: string, username: string, token: string)

  /** The search test for one product: the lower-cased query occurs in the
      lower-cased title, description or category. */
  predicate Matches(p: Product, query: string) {
    var q := ToLower(query);
    Contains(ToLower(p.title), q) || Contains(ToLower(p.description), q) || Contains(ToLower(p.category), q)
  }

  /** `searchProducts`: the products that match, in catalogue order. */
  function SearchProducts(all: seq<Product>, query: string): (r: seq<Product>)
    ensures forall p :: p in r <==> p in all && Matches(p, query)
    ensures |r| <= |all|
  {
    if |all| == 0 then []
    else if Matches(all[0], query) then [all[0]] + SearchProducts(all[1..], query)
    else SearchProducts(all[1..], query)
  }

  /** `xs` is `ys` with some elements left out, the rest in their order. */
  predicate Subsequence<T(==)>(xs: seq<T>, ys: seq<T>)
    decreases |ys|
  {
    |xs| == 0 || (|ys| > 0 && (if xs[0] == ys[0] then Subsequence(xs[1..], ys[1..]) else Subsequence(xs, ys[1..])))
  }

  /** The search keeps the catalogue's order. */
  lemma {:induction false} SearchKeepsOrder(all: seq<Product>, query: string)
    ensures Subsequence(SearchProducts(all, query), all)
    decreases |all|
  {
    if |all| > 0 {
      SearchKeepsOrder(all[1..], query);
      var r := SearchProducts(all, query);
      if Matches(all[0], query) {
        assert r[0] == all[0] && r[1..] == SearchProducts(all[1..], query);
      } else if |r| > 0 {
        assert r[0] in r;
        assert r[0] != all[0];
      }
    }
  }

  /** Every string contains the empty query, so it returns the catalogue. */
  lemma {:induction false} EmptyQueryKeepsAll(all: seq<Product>)
    ensures SearchProducts(all, "") == all
    decreases |all|
  {
    if |all| > 0 {
      ContainsEmpty(ToLower(all[0].title));
      assert ToLower("") == "";
      EmptyQueryKeepsAll(all[1..]);
    }
  }

  /** The search ignores the case of ASCII letters in the query. */
  lemma SearchIgnoresQueryCase(all: seq<Product>, query: string)
    ensures SearchProducts(all, ToLower(query)) == SearchProducts(all, query)
  {
    ToLowerIdempotent(query);
    SearchSameMatches(all, ToLower(query), query);
  }

  lemma {:induction false} SearchSameMatches(all: seq<Product>, q1: string, q2: string)
    requires ToLower(q1) == ToLower(q2)
    ensures SearchProducts(all, q1) == SearchProducts(all, q2)
    decreases |all|
  {
    if |all| > 0 {
      SearchSameMatches(all[1..], q1, q2);
    }
  }

  /** How many products `getFeaturedProducts` shows. */
  const FeaturedCount: nat := 4

  /** `getFeaturedProducts`: `shuffled` is the catalogue after the random
      sort, which only reorders it; the first four are shown. */
  function FeaturedProducts(all: seq<Product>, shuffled: seq<Product>): (r: seq<Product>)
    requires multiset(shuffled) == multiset(all)
    ensures |r| == if |all| < FeaturedCount then |all| else FeaturedCount
    ensures multiset(r) <= multiset(all)
    ensures forall p :: p in r ==> p in all
  {
    assert |shuffled| == |multiset(shuffled)| == |all|;
    var r := if |shuffled| < FeaturedCount then shuffled else shuffled[..FeaturedCount];
    assert shuffled == r + shuffled[|r|..];
    assert multiset(shuffled) == multiset(r) + multiset(shuffled[|r|..]);
    assert forall p :: p in r ==> p in multiset(all);
    r
  }

  /** `loginUser`'s e-mail: the username itself when it has an '@',
      otherwise the username at example.com. */
  function LoginEmail(username: string): (email: string)
    ensures '@' in email
    ensures '@' in username ==> email == username
    ensures '@' !in username ==> email == username + "@example.com"
  {
    if '@' in username then username else username + "@example.com"
  }

  /** The user `loginUser` returns once the store API accepted the login. */
  function LoginUser(username: string, token: string): (u: User)
    ensures u.id == 1 && u.username == username && u.token == token
    ensures u.email == LoginEmail(username)
  {
    User(1, LoginEmail(username), username, token)
  }

  /** Applying the derivation twice changes nothing: an e-mail it produced
      is kept as it is. */
  lemma LoginEmailIdempotent(username: string)
    ensures LoginEmail(LoginEmail(username)) == LoginEmail(username)
  {
  }
}
