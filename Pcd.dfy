/**
  The Configuration Registry: the EDKII_CRYPTO_PCD macro.

  Every crypto service Name has a FixedAtBuild boolean PCD whose token is
  PcdCryptoService<Name>. The PCD database of one build is an immutable map
  from token names to booleans; a service whose token is missing from it does
  not compile, so callers must name a declared service.
*/
module Pcd {
  /** The FixedAtBuild PCD values of one build, keyed by token name. */
  type PcdDatabase = map<string, bool>

  /** The prefix that the macro pastes in front of the service name. */
  const TokenPrefix: string := "PcdCryptoService"

  /** The token `PcdCryptoService##Name`. */
  function PcdToken(name: string): string {
    TokenPrefix + name
  }

  /** The build declares the flag of service `name`. */
  predicate Declared(db: PcdDatabase, name: string) {
    PcdToken(name) in db
  }

  /** Every service of `names` has a declared flag. */
  predicate AllDeclared(db: PcdDatabase, names: seq<string>) {
    forall i :: 0 <= i < |names| ==> Declared(db, names[i])
  }

  /**
    `EDKII_CRYPTO_PCD(Name)`: TRUE exactly when the build's database holds
    the service's own token with the value TRUE.
  */
  function IsEnabled(db: PcdDatabase, name: string): (enabled: bool)
    requires Declared(db, name)
    ensures enabled <==> (PcdToken(name), true) in db.Items
    ensures !enabled <==> (PcdToken(name), false) in db.Items
  {
    db[PcdToken(name)]
  }

  /** Token pasting is injective: distinct services read distinct flags. */
  lemma PcdTokenInjective(a: string, b: string)
    ensures PcdToken(a) == PcdToken(b) <==> a == b
  {
    if PcdToken(a) == PcdToken(b) {
      assert a == PcdToken(a)[|TokenPrefix|..];
      assert b == PcdToken(b)[|TokenPrefix|..];
    }
  }

  /**
    The enablement of a service is read only from its own flag: changing or
    adding the flag of any other service leaves the answer unchanged.
  */
  lemma IsEnabledReadsOnlyOwnFlag(db: PcdDatabase, name: string, other: string, value: bool)
    requires Declared(db, name)
    requires other != name
    ensures Declared(db[PcdToken(other) := value], name)
    ensures IsEnabled(db[PcdToken(other) := value], name) == IsEnabled(db, name)
  {
    PcdTokenInjective(other, name);
  }
}
