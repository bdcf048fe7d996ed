# EDK II Crypto Protocol/PPI dispatch layer, in Dafny

This project models the feature-gated dispatch layer of the EDK II Crypto
Protocol/PPI driver (`CryptoPkg/Driver/Packaging/Crypto.template.c`). Each
BaseCryptLib/TlsLib service has a FixedAtBuild boolean PCD,
`PcdCryptoService<Name>`. When the PCD is TRUE, a protocol call goes straight
to the library function. When it is FALSE, the call is intercepted: the
driver prints an error naming the function, ASSERTs (which halts a DEBUG
build), and yields the call site's `ErrorReturnValue`. The protocol table
holds the `CryptoService<Name>` wrapper of each enabled service and NULL for
each disabled one. The table's version is a fixed constant.

Modules:

- `Pcd` (Pcd.dfy): the build's PCD database as an immutable `map<string, bool>` keyed by token name, and `EDKII_CRYPTO_PCD` as `IsEnabled`.
- `Dispatch` (Dispatch.dfy): the pure specification. It covers the not-enabled handler, `CALL_BASECRYPTLIB` (`Call`) and `CALL_VOID_BASECRYPTLIB` (`CallVoid`). They act on a `Trace`, which holds the debug log and the names of the library functions invoked. It also defines `Run`, a session: a sequence of non-void calls of one signature. Lemmas describe whole sessions in builds whose ASSERT halts and in builds whose ASSERT returns.
- `Table` (Table.dfy): `NULL_IF_DISABLED`, the table built from an ordered list of service names, and `CryptoServiceGetCryptoVersion`.
- `Driver` (Driver.dfy): the running driver as a class. Its fields are the log, the invocation trace and a `halted` flag. It has the handler and the two call macros as methods, each proved equal to its `Dispatch` specification.
- `Wrappers` (Wrappers.dfy): `Option`, where `None` stands for NULL.

The code and its doc comments disagree in two places; the model follows the code:

- The comments at lines 16-18 and 46-50 describe a `PcdCryptoServiceFamilyEnable` structure and an `Enable` parameter of `CALL_VOID_BASECRYPTLIB`. The macros actually read one boolean PCD per function, `PcdCryptoService##Function`, and `CALL_VOID_BASECRYPTLIB` takes only `Function` and `Args`.
- The comment at line 61 speaks of RELEASE builds. `NULL_IF_DISABLED` actually tests the PCD in every build.

The model takes these as parameters:

- The underlying library functions: the `impl` field of a `Service`.
- `gEfiCallerBaseName`: the `callerBaseName` field of a `Build`.
- Whether `ASSERT` halts: the `debug` field of a `Build`. Below, a "non-halting build" is one with `debug` false: the handler prints and its ASSERT returns.

## Model

| member | source | states |
|---|---|---|
| `Pcd.PcdTokenInjective` | CryptoPkg/Driver/Packaging/Crypto.template.c:20-21 | Pasting `PcdCryptoService` in front of a name is injective, so distinct services read distinct flags. |
| `Pcd.IsEnabled` | CryptoPkg/Driver/Packaging/Crypto.template.c:20-21 | A service is enabled exactly when the build's PCD database holds its own token `PcdCryptoService<Name>` with the value TRUE, and disabled exactly when it holds that token with FALSE. |
| `Pcd.IsEnabledReadsOnlyOwnFlag` | CryptoPkg/Driver/Packaging/Crypto.template.c:20-21 | Enablement of a service is read only from its own fixed flag. Changing any other service's flag does not change it. |
| `Dispatch.ServiceNotEnabled` | CryptoPkg/Driver/Packaging/Crypto.template.c:83-89 | The handler appends exactly one error-severity diagnostic carrying the caller base name and the function name. It invokes nothing. It halts if and only if the build is a DEBUG build. |
| `Dispatch.Call` | CryptoPkg/Driver/Packaging/Crypto.template.c:35-38 | Enabled: the outcome is the function's own result and only that invocation is recorded. Disabled: the trace is the handler's, and the outcome is `ErrorReturnValue` in a non-halting build or `Halted` in DEBUG. |
| `Dispatch.CallVoid` | CryptoPkg/Driver/Packaging/Crypto.template.c:55-58 | The void call halts exactly when the service is disabled in a DEBUG build. Enabled: only the invocation is recorded. Disabled: only the handler's diagnostic is recorded. |
| `Dispatch.EnabledCallIsTransparent` | CryptoPkg/Driver/Packaging/Crypto.template.c:35-37 | An enabled call returns exactly what the function returns for the same arguments. It invokes the function once and logs nothing. |
| `Dispatch.DisabledCallReturnsSentinel` | CryptoPkg/Driver/Packaging/Crypto.template.c:35-38 | A disabled call never invokes the function. It logs exactly one diagnostic naming `#Function`. It returns exactly `ErrorReturnValue` in a non-halting build and halts in DEBUG. |
| `Dispatch.VoidCallBranchesExclusive` | CryptoPkg/Driver/Packaging/Crypto.template.c:55-58 | In a void call exactly one of two things happens: the function runs, or the handler logs. Never both, never neither. |
| `Dispatch.CallVoidIsUnitCall` | CryptoPkg/Driver/Packaging/Crypto.template.c:55-58 | A void call is exactly a non-void call whose result type has a single value: the same trace and the same halting. |
| `Dispatch.DisabledDiagnosticsOnePerCall` | CryptoPkg/Driver/Packaging/Crypto.template.c:35-38 | In a non-halting build a session keeps the old log and adds exactly one entry per disabled call. Each added entry is error-severity, carries the caller base name and names a disabled service of the session. |
| `Dispatch.ReleaseRun` | CryptoPkg/Driver/Packaging/Crypto.template.c:35-38 | In a non-halting build every call of a session returns. The i-th outcome is the function's result when enabled and the sentinel when disabled. The log gains one diagnostic per disabled call, in order. The functions run exactly for the enabled calls, in order. |
| `Dispatch.AllDisabledRun` | CryptoPkg/Driver/Packaging/Crypto.template.c:35-38 | With every requested service disabled, a non-halting build returns each call's own sentinel, invokes no implementation, and logs one diagnostic per call. |
| `Dispatch.DebugRunHaltsAtFirstDisabled` | CryptoPkg/Driver/Packaging/Crypto.template.c:83-89 | In a DEBUG build a session stops with `Halted` right after its first disabled call. The calls before it return their functions' results. The log gains exactly that call's one diagnostic. |
| `Table.NullIfDisabled` | CryptoPkg/Driver/Packaging/Crypto.template.c:63-66 | The entry is present if and only if the service is enabled. A present entry is exactly the `CryptoService<Name>` wrapper; no other value is possible. |
| `Table.Entries` | CryptoPkg/Driver/Packaging/Crypto.template.c:63-66 | The table has one entry per listed service, in order. Entry i is NULL exactly when service i is disabled, and otherwise it is that service's wrapper. |
| `Table.BuildTable` | CryptoPkg/Driver/Packaging/Crypto.template.c:63-66 | The built table carries `EDKII_CRYPTO_VERSION` and one entry per listed service, in order. Entry i is exactly what `NULL_IF_DISABLED` selects for service i. |
| `Table.TableDependsOnlyOnListedFlags` | CryptoPkg/Driver/Packaging/Crypto.template.c:63-66 | Two builds whose flags agree on the listed services give identical tables, whatever other flags they set. |
| `Table.PresentEntriesCountEnabled` | CryptoPkg/Driver/Packaging/Crypto.template.c:63-66 | The number of non-NULL entries equals the number of enabled services. |
| `Table.AllDisabledTable` | CryptoPkg/Driver/Packaging/Crypto.template.c:63-66 | With every service disabled, the table is still fully sized and versioned, and all its entries are NULL. |
| `Table.GetCryptoVersion` | CryptoPkg/Driver/Packaging/Crypto.template.c:97-104 | The getter returns `EDKII_CRYPTO_VERSION`. It reads no PCD and no driver state, so no flag and no earlier call can change it. |
| `Table.VersionIndependentOfBuild` | CryptoPkg/Driver/Packaging/Crypto.template.c:97-104 | The version is `EDKII_CRYPTO_VERSION` for every PCD database and every list of services. |
| `Driver.CryptoDriver.ServiceNotEnabled` | CryptoPkg/Driver/Packaging/Crypto.template.c:83-89 | The handler method appends exactly one diagnostic to the driver's log and invokes nothing. It leaves the driver halted exactly in a DEBUG build. Its new state is the one `Dispatch.ServiceNotEnabled` gives. |
| `Driver.CryptoDriver.CallBaseCryptLib` | CryptoPkg/Driver/Packaging/Crypto.template.c:35-38 | The method's outcome and the driver's new log and trace are those `Dispatch.Call` gives for the old state. The driver is halted exactly when the outcome is `Halted`. |
| `Driver.CryptoDriver.CallVoidBaseCryptLib` | CryptoPkg/Driver/Packaging/Crypto.template.c:55-58 | The method's outcome and the driver's new state are those `Dispatch.CallVoid` gives. The driver is halted exactly when the outcome is `Halted`. |

## Left out

- The BaseCryptLib/TlsLib algorithms (hashes, ciphers, RSA, TLS). They are foreign code and are modelled only as the `impl` function of a `Service`.
- Effects the library functions have through pointer arguments, such as updating a hash context. They are not modelled; `impl` is a pure function from arguments to result.
- The DEBUG backend, its `%a` formatting and the value of `gEfiCallerBaseName`. A diagnostic is an abstract record, and the caller base name is a parameter of the build.
- How `ASSERT_EFI_ERROR` stops execution (dead loop or breakpoint). The model has a `halted` flag and a `Halted` outcome, and nothing is called after a halt.
- The link-time removal of disabled functions. Binary size cannot be stated. The model states only that a disabled call never invokes the function.
- The generated per-service wrappers and the concrete protocol structure, which are filled in by code generation at line 106. The macros are modelled generically over any service name, argument type and result type.
- The numeric value of `EDKII_CRYPTO_VERSION`. It is defined in `Protocol/Crypto.h`, which is not part of this model, and stays an abstract constant here.
- Installation of the protocol/PPI, and concurrent writes to the logging sink.
- Sessions of mixed signatures. A `Run` session holds calls of a single argument type and result type, so a client that calls a UINTN-returning service and then a BOOLEAN-returning one is not expressible. Void calls enter a session only as calls with the one-valued result type (`CallVoidIsUnitCall`), in a session of their own. Single calls of any signature are covered by `Call` and `CallVoid`.
- RELEASE targets that compile the handler's DEBUG and ASSERT out (MDEPKG_NDEBUG). Such a build logs nothing. The model's non-halting build (`debug` false) is a build where the handler prints and its ASSERT returns, not that target.
