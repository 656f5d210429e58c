/**
 * The classifier: which registered categories a whole token belongs to, and
 * which category names the engine supports.
 */
module Classifier {
  import opened Patterns

  /** Category names identify categories: no two categories share a name. */
  lemma NameInjective(c: Category, d: Category)
    ensures Name(c) == Name(d) <==> c == d
  {
  }

  /** No name occurs twice in `r`. */
  predicate Distinct(r: seq<string>) {
    forall j, k | 0 <= j < k < |r| :: r[j] != r[k]
  }

  /**
   * The names of the categories of `cs` whose pattern covers all of `token`,
   * in the order of `cs`.
   */
  function MatchingNames(cs: seq<Category>, token: string): (r: seq<string>)
    ensures |r| <= |cs|
    ensures forall n | n in r :: exists c | c in cs :: Name(c) == n && Matches(c, token)
  {
    if cs == [] then []
    else
      var rest := MatchingNames(cs[1..], token);
      if Matches(cs[0], token) then [Name(cs[0])] + rest else rest
  }

  /** A category's name is listed exactly when the category is in `cs` and matches the token. */
  lemma {:induction false} MatchingNamesComplete(cs: seq<Category>, token: string, c: Category)
    ensures Name(c) in MatchingNames(cs, token) <==> c in cs && Matches(c, token)
  {
    if cs != [] {
      MatchingNamesComplete(cs[1..], token, c);
      NameInjective(c, cs[0]);
      assert cs == [cs[0]] + cs[1..];
    }
  }

  /** Listing the matching names of a registry without repeated categories repeats no name. */
  lemma {:induction false} MatchingNamesDistinct(cs: seq<Category>, token: string)
    requires forall j, k | 0 <= j < k < |cs| :: cs[j] != cs[k]
    ensures Distinct(MatchingNames(cs, token))
  {
    if cs != [] {
      MatchingNamesDistinct(cs[1..], token);
      if Matches(cs[0], token) {
        MatchingNamesComplete(cs[1..], token, cs[0]);
        assert cs[0] !in cs[1..] by {
          forall k | 0 <= k < |cs[1..]| ensures cs[1..][k] != cs[0] {
            assert cs[1..][k] == cs[k + 1];
          }
        }
      }
    }
  }

  /** Over the registry, the matching names are exactly the categories the token matches. */
  lemma RegistryMatchingNames(token: string)
    ensures forall c :: Name(c) in MatchingNames(Registry, token) <==> Matches(c, token)
    ensures forall n | n in MatchingNames(Registry, token) ::
      ParseCategory(n).Some? && Matches(ParseCategory(n).value, token)
    ensures Distinct(MatchingNames(Registry, token))
  {
    var r := MatchingNames(Registry, token);
    forall c ensures Name(c) in r <==> Matches(c, token) {
      MatchingNamesComplete(Registry, token, c);
      RegistryComplete(c);
    }
    forall n | n in r ensures ParseCategory(n).Some? && Matches(ParseCategory(n).value, token) {
      var c :| c in Registry && Name(c) == n && Matches(c, token);
      RegistryComplete(c);
    }
    MatchingNamesDistinct(Registry, token);
  }

  /**
   * getTokenTypes: the names of all categories whose pattern covers the whole
   * token (inclusive: a token can belong to several), each once, in registry order.
   */
  function TokenTypes(token: string): (r: seq<string>)
    ensures forall c :: Name(c) in r <==> Matches(c, token)
    ensures forall n | n in r :: ParseCategory(n).Some? && Matches(ParseCategory(n).value, token)
    ensures Distinct(r)
  {
    RegistryMatchingNames(token);
    MatchingNames(Registry, token)
  }

  /** The names of the registered categories, in registry order. */
  function RegistryNames(cs: seq<Category>): (r: seq<string>)
    ensures |r| == |cs|
    ensures forall k | 0 <= k < |cs| :: r[k] == Name(cs[k])
  {
    if cs == [] then [] else [Name(cs[0])] + RegistryNames(cs[1..])
  }

  /** Every registered name is listed once, and every listed name parses back to a category. */
  lemma SupportedNames()
    ensures forall c :: Name(c) in RegistryNames(Registry)
    ensures forall n | n in RegistryNames(Registry) :: ParseCategory(n).Some?
    ensures Distinct(RegistryNames(Registry))
  {
    var r := RegistryNames(Registry);
    forall c ensures Name(c) in r {
      RegistryComplete(c);
      var k :| 0 <= k < |Registry| && Registry[k] == c;
      assert r[k] == Name(c);
    }
    forall n | n in r ensures ParseCategory(n).Some? {
      var k :| 0 <= k < |r| && r[k] == n;
      RegistryComplete(Registry[k]);
    }
    forall j, k | 0 <= j < k < |r| ensures r[j] != r[k] {
      RegistryDistinct(j, k);
      NameInjective(Registry[j], Registry[k]);
    }
  }

  /** The registry lists every category once. */
  lemma RegistryDistinct(j: nat, k: nat)
    requires j < k < |Registry|
    ensures Registry[j] != Registry[k]
  {
  }

  /** getSupportedTypes: the name of every registered category, each once. */
  function SupportedTypes(): (r: seq<string>)
    ensures forall c :: Name(c) in r
    ensures forall n | n in r :: ParseCategory(n).Some?
    ensures Distinct(r)
  {
    SupportedNames();
    RegistryNames(Registry)
  }
}
