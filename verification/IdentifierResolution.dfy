/** Identifier resolution of pkg/wmp/registry.go. */
module IdentifierResolution {

  datatype Answer = NoAnswer | Endpoint(url: string) | Failure(reason: string)

  /** A registered resolver: its schemes and what it answers. */
  datatype Resolver = Resolver(schemes: seq<string>, resolve: string -> Answer)

  predicate Handles(r: Resolver, identifier: string) {
    exists i :: 0 <= i < |r.schemes| && r.schemes[i] <= identifier
  }

  /** A resolver handles an identifier if the identifier starts with one of its schemes. */
  lemma HandlesExact(r: Resolver, identifier: string)
    ensures Handles(r, identifier) <==>
            exists i :: 0 <= i < |r.schemes| && |r.schemes[i]| <= |identifier| &&
                        identifier[..|r.schemes[i]|] == r.schemes[i]
  {
  }

  /** The resolver settles the matter: it handles the identifier, and finds an endpoint or fails. */
  predicate Settles(r: Resolver, identifier: string) {
    Handles(r, identifier) && r.resolve(identifier) != NoAnswer
  }

  /** `resolveIdentifier`: the first registered resolver that settles the identifier decides. */
  method ResolveIdentifier(resolvers: seq<Resolver>, identifier: string) returns (a: Answer)
    ensures a == NoAnswer <==> forall i :: 0 <= i < |resolvers| ==> !Settles(resolvers[i], identifier)
    ensures a != NoAnswer ==>
              exists i :: && 0 <= i < |resolvers| && Settles(resolvers[i], identifier)
                          && a == resolvers[i].resolve(identifier)
                          && forall j :: 0 <= j < i ==> !Settles(resolvers[j], identifier)
  {
    for i := 0 to |resolvers|
      invariant forall j :: 0 <= j < i ==> !Settles(resolvers[j], identifier)
    {
      var r := resolvers[i];
      var k := 0;
      while k < |r.schemes|
        invariant 0 <= k <= |r.schemes|
        invariant (forall j :: 0 <= j < k ==> !(r.schemes[j] <= identifier)) || !Settles(r, identifier)
      {
        if r.schemes[k] <= identifier {
          a := r.resolve(identifier);
          if a != NoAnswer {
            assert Settles(resolvers[i], identifier);
            return;
          }
          break;
        }
        k := k + 1;
      }
    }
    a := NoAnswer;
  }
}
