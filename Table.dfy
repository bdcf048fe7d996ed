/**
  The service table of the EDK II Crypto Protocol/PPI: NULL_IF_DISABLED,
  the table it fills, and CryptoServiceGetCryptoVersion.
*/
module Table {
  import opened Wrappers
  import opened Pcd

  /** EDKII_CRYPTO_VERSION, defined by the protocol header; its value is left abstract. */
  const CryptoVersion: nat

  /** The prefix that NULL_IF_DISABLED pastes in front of the service name. */
  const WrapperPrefix: string := "CryptoService"

  /** The protocol wrapper `CryptoService##Function` of a service. */
  function WrapperName(name: string): string {
    WrapperPrefix + name
  }

  /**
    NULL_IF_DISABLED (Function): the wrapper's address for an enabled service,
    NULL (None) for a disabled one, and no other value.
  */
  function NullIfDisabled(db: PcdDatabase, name: string): (entry: Option<string>)
    requires Declared(db, name)
    ensures entry.Some? <==> IsEnabled(db, name)
    ensures entry.Some? ==> entry.value == WrapperName(name)
  {
    if IsEnabled(db, name) then Some(WrapperName(name)) else None
  }

  /**
    CryptoServiceGetCryptoVersion: the protocol version. It takes no PCD
    database and no driver state, so no flag and no earlier call affects it.
  */
  function GetCryptoVersion(): (version: nat)
    ensures version == CryptoVersion
  {
    CryptoVersion
  }

  /** A filled-in protocol table: its version and one entry per service, in order. */
  datatype CryptoTable = CryptoTable(version: nat, entries: seq<Option<string>>)

  /** The entries of the table for the services `names`, in that order. */
  function Entries(db: PcdDatabase, names: seq<string>): (entries: seq<Option<string>>)
    requires AllDeclared(db, names)
    ensures |entries| == |names|
    ensures forall i :: 0 <= i < |names| ==> (entries[i].Some? <==> IsEnabled(db, names[i]))
    ensures forall i :: 0 <= i < |names| && entries[i].Some? ==> entries[i].value == WrapperName(names[i])
    decreases |names|
  {
    if names == [] then []
    else
      assert forall i :: 0 <= i < |names[1..]| ==> names[1..][i] == names[i + 1];
      [NullIfDisabled(db, names[0])] + Entries(db, names[1..])
  }

  /** The table a build of the driver exposes. */
  function BuildTable(db: PcdDatabase, names: seq<string>): (table: CryptoTable)
    requires AllDeclared(db, names)
    ensures table.version == CryptoVersion
    ensures |table.entries| == |names|
    ensures forall i :: 0 <= i < |names| ==> table.entries[i] == NullIfDisabled(db, names[i])
  {
    CryptoTable(GetCryptoVersion(), Entries(db, names))
  }

  /**
    The table's layout is determined by the flags of its own services: two
    builds that agree on those flags give identical tables, whatever other
    flags they set.
  */
  lemma TableDependsOnlyOnListedFlags(db1: PcdDatabase, db2: PcdDatabase, names: seq<string>)
    requires AllDeclared(db1, names) && AllDeclared(db2, names)
    requires forall i :: 0 <= i < |names| ==> IsEnabled(db1, names[i]) == IsEnabled(db2, names[i])
    ensures BuildTable(db1, names) == BuildTable(db2, names)
  {
    var e1, e2 := Entries(db1, names), Entries(db2, names);
    forall i | 0 <= i < |names| ensures e1[i] == e2[i] {
    }
  }

  /** The version is the same for every build and every list of services. */
  lemma VersionIndependentOfBuild(db1: PcdDatabase, names1: seq<string>, db2: PcdDatabase, names2: seq<string>)
    requires AllDeclared(db1, names1) && AllDeclared(db2, names2)
    ensures BuildTable(db1, names1).version == BuildTable(db2, names2).version == CryptoVersion
  {
  }

  /** The number of non-NULL entries. */
  function CountPresent(entries: seq<Option<string>>): nat
    decreases |entries|
  {
    if entries == [] then 0 else (if entries[0].Some? then 1 else 0) + CountPresent(entries[1..])
  }

  /** The number of enabled services among `names`. */
  function CountEnabled(db: PcdDatabase, names: seq<string>): nat
    requires AllDeclared(db, names)
    decreases |names|
  {
    if names == [] then 0
    else (if IsEnabled(db, names[0]) then 1 else 0) + CountEnabled(db, names[1..])
  }

  /** The table holds exactly as many wrappers as there are enabled services. */
  lemma {:induction false} PresentEntriesCountEnabled(db: PcdDatabase, names: seq<string>)
    requires AllDeclared(db, names)
    ensures CountPresent(BuildTable(db, names).entries) == CountEnabled(db, names)
    decreases |names|
  {
    if names != [] {
      assert forall i :: 0 <= i < |names[1..]| ==> names[1..][i] == names[i + 1];
      PresentEntriesCountEnabled(db, names[1..]);
      assert Entries(db, names)[1..] == Entries(db, names[1..]);
    }
  }

  /**
    Disabling every service still gives a table of the right size and
    version, every entry of which is NULL.
  */
  lemma AllDisabledTable(db: PcdDatabase, names: seq<string>)
    requires AllDeclared(db, names)
    requires forall i :: 0 <= i < |names| ==> !IsEnabled(db, names[i])
    ensures BuildTable(db, names).version == GetCryptoVersion()
    ensures BuildTable(db, names).entries == seq(|names|, _ => None)
  {
  }
}
