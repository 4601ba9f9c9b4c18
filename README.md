# RenJS core: run-time type assertions, the gateway script, and network resolution

This project models, in Dafny, five small pieces of the RenJS libraries and proves properties about them.

- **Run-time type assertions** (`packages/lib/utils/src/assert.ts`), in module `TypeAssert` (`type_assert.dfy`).
  - `assert`, `typeOf`, `is`, `isUnionType` and `isArrayType`.
  - The `assertTypeCheck` loop, `assertPrimitiveType`, `assertType`, `assertBuffer` and `assertClass`.
  - The mutually recursive `assertTypeUnion` / `assertArray` pair.
  - A JavaScript value is the datatype `Value`. An object of named values is a sequence of `Entry(key, value)`, in `Object.keys` order.
  - A thrown `Error` is `Failure(message)`; a normal return is `Success(result)`.
  - The two loops (`AssertTypeCheck`, `AssertArray`) are methods, proved equal to pure specification functions.
  - Those functions are related to a declarative reading of type descriptions (`Describes`, `ConformsToUnion`).
- **The gateway script** (`packages/lib/chains/chains-bitcoin/src/script/index.ts`), in module `GatewayScript` (`gateway_script.dfy`).
  - The script is `<gHash> OP_DROP` followed by the pay-to-pubkey-hash script of `gGubKeyHash`.
  - The gateway address and the pay-to-script-hash output are derived from it. Script hashing, address encoding and the output template are function parameters.
  - The script's standard byte serialisation is modelled with a decoder. The decoder is proved to invert it.
- **RenVM network names** (`packages/lib/interfaces/src/networks.ts`), in module `RenNetworks` (`ren_networks.dfy`): the three details records and `getRenNetworkDetails`.
- **Legacy network resolution** (`packages/lib/ren-js/ren-js/src/types/networks.ts`), in module `LegacyNetworks` (`legacy_networks.dfy`).
  - The three legacy network records.
  - `stringToNetwork`, which matches names regardless of case.
- **Fantom** (`packages/lib/chains/chains-ethereum/src/fantom.ts`), in module `Fantom` (`fantom.dfy`).
  - `resolveFantomNetwork`, `FantomConfigMap` and the explorer-link formatters.
  - `FantomClass`, a class whose `Initialize` method updates its `renNetworkDetails` field.

`wrappers.dfy` holds the `Option` and `Result` datatypes.

Points where the model follows the code rather than a plain reading of the design:

- `isUnionType` never returns `false`, because `split` always yields at least one piece. So the final `assertTypeCheck(is(type), …)` branch of `assertType` is unreachable. The model marks it so (`IsUnionType`, `AssertType`).
- `isArrayType` returns the captured element type, and the empty capture of `"Array<>"` or `"[]"` is falsy in JavaScript. Every caller's test is therefore modelled as `Truthy(ArrayElementType(t))`.
- `assertArray` returns `false` (it does not throw) when it meets an empty key. `assertTypeUnion` ignores that result.
  - So an array alternative of a union accepts any value stored under the empty key. This is modelled as written (`EmptyKeyPassesArrayAlternative`, `EmptyKeyExample`).
  - The meaning lemmas therefore assume non-empty keys.
- `assertArray` checks that a value is an array through the object `{ value }`. The failure message therefore names the key `value` and the type `any[]`.
- `getRenNetworkDetails` returns any string it does not recognise unchanged, despite its declared result type. `resolveFantomNetwork` then rejects such a string, because a string has no `isTestnet`.
  - In particular, `RenNetwork.DevnetVDot3` passed as a name is rejected (`DevnetVDot3NameUnsupported`), given the value assumed for it under "## Left out".
  - Only a details record with that name and `isTestnet` set is accepted (`DevnetVDot3DetailsSupported`).
- The `|| renFantomDevnet` fallback in the explorer links never applies: resolution either throws or returns a configuration.

## Model

| member | source | states |
|---|---|---|
| TypeAssert.Assert | packages/lib/utils/src/assert.ts:3-11 | succeeds (with `true`) exactly when the assertion holds; otherwise the message starts with "Failed assertion", is exactly that when there is no sentence, and otherwise continues with ": " and the sentence |
| TypeAssert.TypeOf | packages/lib/utils/src/assert.ts:49-50 | the name is a primitive type name other than "any"; "null" exactly for null, "Buffer" exactly for buffers, "object" exactly for arrays and plain objects |
| TypeAssert.Is | packages/lib/utils/src/assert.ts:73-74 | "any" accepts every value and a name outside the primitive names accepts none; "null" accepts exactly null, "Buffer" exactly buffers, "object" exactly arrays and plain objects; any other accepted name is the value's `typeOf` |
| TypeAssert.IsAcceptsExactly | packages/lib/utils/src/assert.ts:73-74 | `is(t)(v)` holds exactly when `t` is "any" or `typeOf(v)` is `t`; a name outside the primitive names accepts nothing |
| TypeAssert.TypeCheck | packages/lib/utils/src/assert.ts:52-71 | succeeds (with `true`) exactly when every entry passes the check; on failure the message is the mismatch message for the first rejected entry, naming its key and readable type |
| TypeAssert.FirstRejectedUnique | packages/lib/utils/src/assert.ts:59-61 | the entry the loop stops at is unique: the first one the check rejects |
| TypeAssert.AssertTypeCheck | packages/lib/utils/src/assert.ts:52-71 | the loop over the keys returns exactly what `TypeCheck` specifies |
| TypeAssert.AssertPrimitiveType | packages/lib/utils/src/assert.ts:95-101 | succeeds (with `true`) exactly when every value satisfies `is(type)` |
| TypeAssert.AssertClass | packages/lib/utils/src/assert.ts:124-135 | succeeds exactly when every value is an instance of the class |
| TypeAssert.Split | packages/lib/utils/src/assert.ts:77 | splitting on " \| " yields at least one piece, no piece contains the separator, and joining the pieces with it gives back the description, so the text is cut at every separator |
| TypeAssert.SplitFromPieces | packages/lib/utils/src/assert.ts:77 | a partial split yields no piece containing the separator when none starts inside the part already read |
| TypeAssert.SplitFromJoin | packages/lib/utils/src/assert.ts:77 | joining the pieces of a partial split with " \| " restores the text |
| TypeAssert.SplitJoin | packages/lib/utils/src/assert.ts:77 | joining the pieces of `split(" \| ")` with the separator gives back the description |
| TypeAssert.SplitFromNoSeparator | packages/lib/utils/src/assert.ts:77 | a partial split of text with no separator is a single piece |
| TypeAssert.SplitNoSeparator | packages/lib/utils/src/assert.ts:77 | a description without the separator splits into itself alone |
| TypeAssert.SplitNoSpace | packages/lib/utils/src/assert.ts:77 | a description without spaces splits into itself alone |
| TypeAssert.IsUnionType | packages/lib/utils/src/assert.ts:76-79 | never returns `false`: always the split pieces |
| TypeAssert.ArrayElementType | packages/lib/utils/src/assert.ts:81-93 | yields an element type exactly when `^Array<(.*)>$` or `^([^ ]*)\[\]$` matches; the description is then `Array<` + element + `>` (tried first) or element + `[]` |
| TypeAssert.ArrayFormElement | packages/lib/utils/src/assert.ts:82-87 | `Array<t>` yields `t` whenever `t` has no line terminator |
| TypeAssert.BracketFormElement | packages/lib/utils/src/assert.ts:83-90 | `t[]` yields `t` whenever `t` has no space |
| TypeAssert.BracketFormRejectsSpace | packages/lib/utils/src/assert.ts:83 | `t[]` with a space in `t` is not an array type unless the `Array<…>` form matches |
| TypeAssert.NestedArrayElement | packages/lib/utils/src/assert.ts:82 | the greedy capture makes `Array<Array<x>>` yield `Array<x>` |
| TypeAssert.ElementKey | packages/lib/utils/src/assert.ts:191 | the key `${key}[${i}]` given to an array element is never empty |
| TypeAssert.AssertTypeUnion | packages/lib/utils/src/assert.ts:143-170 | succeeds (with `true`) exactly when, for every entry, some alternative of the split description accepts the value under its key |
| TypeAssert.UnionOfOneEntry | packages/lib/utils/src/assert.ts:143-170 | a union assertion on one entry is the per-entry union check used for array elements |
| TypeAssert.AnyAlternativeIffSome | packages/lib/utils/src/assert.ts:152-166 | the `reduce` from `false` that keeps the first `true` holds exactly when some alternative holds |
| TypeAssert.ArrayOfOneEntry | packages/lib/utils/src/assert.ts:159 | an array assertion on the one-entry object `{ [key]: v }` is the per-entry array check |
| TypeAssert.ElementsSucceedWithTrue | packages/lib/utils/src/assert.ts:190-194 | checking the elements of an array never returns `false` |
| TypeAssert.AssertArray | packages/lib/utils/src/assert.ts:172-194 | the two nested loops return exactly what `ArrayCheck` specifies: invalid array type throws, an empty key returns `false`, a non-array throws the `value`/`any[]` mismatch, each element is checked as a union under `${key}[${i}]` |
| TypeAssert.AnyAlternativeMeaning | packages/lib/utils/src/assert.ts:152-166 | under a non-empty key the alternatives accept a value exactly when the value conforms to one of them |
| TypeAssert.AlternativeMeaning | packages/lib/utils/src/assert.ts:156-165 | under a non-empty key one alternative accepts a value exactly when the value conforms to it (an array type: an array whose elements conform to the element type) |
| TypeAssert.ArrayEntryMeaning | packages/lib/utils/src/assert.ts:187-192 | under a non-empty key the array check of one value succeeds exactly when it is an array whose elements all conform |
| TypeAssert.ElementsMeaning | packages/lib/utils/src/assert.ts:190-192 | checking the elements from index `i` on succeeds exactly when each of them conforms to the element type |
| TypeAssert.UnionEntryMeaning | packages/lib/utils/src/assert.ts:143-170 | under a non-empty key the union check of one value succeeds exactly when the value conforms to the union |
| TypeAssert.AssertTypeUnionMeaning | packages/lib/utils/src/assert.ts:143-170 | with non-empty keys, the union assertion succeeds exactly when every value conforms to the described union |
| TypeAssert.ArrayEntriesMeaning | packages/lib/utils/src/assert.ts:183-194 | with non-empty keys, the array loop succeeds, returning `true`, exactly when every value is an array of conforming elements |
| TypeAssert.ArrayStopsAtEmptyKey | packages/lib/utils/src/assert.ts:184-186 | an empty key after conforming entries makes the loop return `false` without looking further |
| TypeAssert.ArrayCheckRejectsNonArrayType | packages/lib/utils/src/assert.ts:178-181 | a description matching neither array form throws "Invalid array type …" |
| TypeAssert.EmptyKeyPassesArrayAlternative | packages/lib/utils/src/assert.ts:156-163 | an array alternative accepts any value under the empty key, because `assertArray` returns `false` there and nothing reads it |
| TypeAssert.NumberArrayAlternative | packages/lib/utils/src/assert.ts:77-93 | "number[]" is a single alternative whose element type is "number" |
| TypeAssert.EmptyKeyExample | packages/lib/utils/src/assert.ts:156-163 | asserting "number[]" of a string under the empty key succeeds |
| TypeAssert.NonEmptyKeyExample | packages/lib/utils/src/assert.ts:143-170 | the same assertion under a non-empty key fails with the mismatch message for "number[]" |
| TypeAssert.AssertType | packages/lib/utils/src/assert.ts:103-122 | dispatches to the array assertion for array descriptions and to the union assertion otherwise; with non-empty keys it succeeds (with `true`) exactly when every value conforms to the description |
| TypeAssert.AssertBuffer | packages/lib/utils/src/assert.ts:137-141 | succeeds (with `true`) exactly when every value is a Buffer; otherwise fails with the "Buffer" mismatch message of the first non-buffer |
| TypeAssert.BufferAlternative | packages/lib/utils/src/assert.ts:140 | "Buffer" is not an array description, and as a union it accepts exactly the buffers |
| GatewayScript.GatewayScript | packages/lib/chains/chains-bitcoin/src/script/index.ts:3-11 | the `addData`/`addOp` chain builds `<gHash> OP_DROP` followed by the pay-to-pubkey-hash script of the key hash |
| GatewayScript.GatewayScriptLayout | packages/lib/chains/chains-bitcoin/src/script/index.ts:3-11 | the script is `<gHash> OP_DROP` followed by the pay-to-pubkey-hash script, seven elements |
| GatewayScript.ParseGatewayScript | packages/lib/chains/chains-bitcoin/src/script/index.ts:3-11 | whatever it recognises is the gateway script of the hashes it returns |
| GatewayScript.ParseGatewayScriptRoundTrip | packages/lib/chains/chains-bitcoin/src/script/index.ts:3-11 | both hashes can be read back from the gateway script |
| GatewayScript.GatewayScriptInjective | packages/lib/chains/chains-bitcoin/src/script/index.ts:3-11 | distinct hash pairs give distinct scripts |
| GatewayScript.CreateAddress | packages/lib/chains/chains-bitcoin/src/script/index.ts:13-18 | the address is the encoder applied to the script-hash address, under the prefix, of `<gHash> OP_DROP` + pay-to-pubkey-hash |
| GatewayScript.PubKeyScript | packages/lib/chains/chains-bitcoin/src/script/index.ts:20-21 | the output script is the pay-to-script-hash output of `<gHash> OP_DROP` + pay-to-pubkey-hash |
| GatewayScript.AddressAndOutputShareScript | packages/lib/chains/chains-bitcoin/src/script/index.ts:13-21 | the address and the output script are both derived from the same gateway script |
| GatewayScript.DistinctInputsDistinctAddresses | packages/lib/chains/chains-bitcoin/src/script/index.ts:13-18 | with injective hashing and encoding, distinct hash pairs give distinct addresses under one prefix |
| GatewayScript.LittleEndianRoundTrip | packages/lib/chains/chains-bitcoin/src/script/index.ts:5-9 | a length that fits is read back from its little-endian bytes |
| GatewayScript.DecodeElement | packages/lib/chains/chains-bitcoin/src/script/index.ts:3-11 | decoding an encoded element followed by more bytes yields that element followed by the decoded rest |
| GatewayScript.DecodeEncode | packages/lib/chains/chains-bitcoin/src/script/index.ts:3-11 | decoding a serialised script gives back the script |
| GatewayScript.GatewayScriptBytes | packages/lib/chains/chains-bitcoin/src/script/index.ts:3-11 | with a 20-byte key hash and a 32-byte gateway hash the script serialises to `0x20 gHash 75 76 a9 14 pubKeyHash 88 ac` |
| RenNetworks.Value | packages/lib/interfaces/src/networks.ts:1-5 | each network stands for one of the three `RenNetworkString` names |
| RenNetworks.ValueInjective | packages/lib/interfaces/src/networks.ts:1-5 | distinct networks have distinct names |
| RenNetworks.Details | packages/lib/interfaces/src/networks.ts:13-27 | each built-in record carries its network's name, and only mainnet is not a testnet |
| RenNetworks.GetRenNetworkDetails | packages/lib/interfaces/src/networks.ts:29-45 | the three names resolve to a record of the same name, a testnet exactly unless "mainnet"; any other input, a record or an unknown string, is returned unchanged |
| RenNetworks.RenNetworksListsEveryNetworkOnce | packages/lib/interfaces/src/networks.ts:49-53 | the list holds every network once, and its names are exactly the `RenNetworkString` values |
| RenNetworks.EveryNetworkResolves | packages/lib/interfaces/src/networks.ts:32-41 | every enumeration value resolves to its own record |
| RenNetworks.GetRenNetworkDetailsIdempotent | packages/lib/interfaces/src/networks.ts:29-45 | resolving a resolved value changes nothing |
| RenNetworks.ResolvedNameIsInputName | packages/lib/interfaces/src/networks.ts:29-45 | a name resolves to a record carrying that name or is passed through |
| LegacyNetworks.Value | packages/lib/ren-js/ren-js/src/types/networks.ts:4-8 | each legacy network's name is one the switch recognises |
| LegacyNetworks.Record | packages/lib/ren-js/ren-js/src/types/networks.ts:33-92 | each record carries its network's name |
| LegacyNetworks.LowerChar | packages/lib/ren-js/ren-js/src/types/networks.ts:96 | capital ASCII letters map to their small letters, every other character to itself |
| LegacyNetworks.ToLower | packages/lib/ren-js/ren-js/src/types/networks.ts:96 | lower-casing keeps the length and lowers each character |
| LegacyNetworks.ToLowerIdempotent | packages/lib/ren-js/ren-js/src/types/networks.ts:96 | lower-casing twice is lower-casing once |
| LegacyNetworks.ToLowerOfLowerCase | packages/lib/ren-js/ren-js/src/types/networks.ts:96 | text without capitals is its own lower case |
| LegacyNetworks.StringToNetwork | packages/lib/ren-js/ren-js/src/types/networks.ts:94-112 | a string succeeds exactly when its lower case is "", "mainnet", "testnet" or "devnet", yielding the record of that name ("" meaning mainnet); every failure is a string and carries `Unsupported network "<input as given>"`; null or undefined gives mainnet, and a record is returned unchanged |
| LegacyNetworks.CaseInsensitive | packages/lib/ren-js/ren-js/src/types/networks.ts:96 | two strings with the same lower case resolve alike |
| LegacyNetworks.ResolvesLikeLowerCase | packages/lib/ren-js/ren-js/src/types/networks.ts:96 | a string resolves like its lower case |
| LegacyNetworks.MixedCaseExample | packages/lib/ren-js/ren-js/src/types/networks.ts:96-101 | "TestNet" resolves to the testnet record |
| LegacyNetworks.EveryNetworkResolves | packages/lib/ren-js/ren-js/src/types/networks.ts:97-103 | every enumeration value resolves to its own record |
| LegacyNetworks.EmptyIsMainnet | packages/lib/ren-js/ren-js/src/types/networks.ts:97-99 | the empty string, and null or undefined, resolve to mainnet |
| LegacyNetworks.TestnetDevnetShareGeneralFields | packages/lib/ren-js/ren-js/src/types/networks.ts:56-92 | testnet and devnet share the mercury URLs, chain.so names and URL and both foreign networks, and differ in name, lightnode URL, master key, zBTC and BTCShifter |
| LegacyNetworks.RecordInjective | packages/lib/ren-js/ren-js/src/types/networks.ts:33-92 | the three records are pairwise distinct |
| Fantom.ResolveFantomNetwork | packages/lib/chains/chains-ethereum/src/fantom.ts:33-56 | a configuration is returned as is; otherwise success exactly for a resolved testnet record named DevnetVDot3, giving the Fantom devnet, and every other input fails with "Unsupported network " and the resolved value |
| Fantom.StandardNetworksUnsupported | packages/lib/chains/chains-ethereum/src/fantom.ts:43-49 | mainnet, testnet and devnet are all rejected, the message showing `[object Object]` |
| Fantom.DevnetVDot3NameUnsupported | packages/lib/chains/chains-ethereum/src/fantom.ts:43-49 | the DevnetVDot3 name passed as a string is rejected |
| Fantom.DevnetVDot3DetailsSupported | packages/lib/chains/chains-ethereum/src/fantom.ts:46-49 | a DevnetVDot3 record resolves to the Fantom devnet when it is a testnet, and is rejected otherwise |
| Fantom.ResolveFantomNetworkIdempotent | packages/lib/chains/chains-ethereum/src/fantom.ts:40-41 | resolving a resolved configuration gives it back |
| Fantom.ExplorerLink | packages/lib/chains/chains-ethereum/src/fantom.ts:67-84 | on the resolved network (the Fantom devnet by default) a link is its explorer base, the path and the item; a failed resolution fails the link with the same message |
| Fantom.AddressExplorerLink | packages/lib/chains/chains-ethereum/src/fantom.ts:67-75 | on the resolved network (the Fantom devnet by default) the link is its `etherscan` base, "/address/" and the address; a failed resolution fails with the resolver's message |
| Fantom.TransactionExplorerLink | packages/lib/chains/chains-ethereum/src/fantom.ts:77-84 | on the resolved network (the Fantom devnet by default) the link is its `etherscan` base, "/tx/" and the transaction; a failed resolution fails with the resolver's message |
| Fantom.ExplorerLinkEndsWithItem | packages/lib/chains/chains-ethereum/src/fantom.ts:67-84 | the address or transaction can be read back from the end of its link |
| Fantom.DefaultExplorerLinks | packages/lib/chains/chains-ethereum/src/fantom.ts:67-84 | without a network the links are on the Fantom devnet explorer, `…/address/` and `…/tx/` |
| Fantom.LinksShareBase | packages/lib/chains/chains-ethereum/src/fantom.ts:67-84 | on one network the address and transaction links begin with the same explorer base |
| Fantom.ConfigFor | packages/lib/chains/chains-ethereum/src/fantom.ts:29-31 | `FantomConfigMap` has an entry, the Fantom devnet, exactly for a resolved record named DevnetVDot3 |
| Fantom.InitializeKeepsSetDetails | packages/lib/chains/chains-ethereum/src/fantom.ts:108-110 | an already-set network is kept, whatever is passed |
| Fantom.InitializeFromUnset | packages/lib/chains/chains-ethereum/src/fantom.ts:108-110 | from an unset network only a DevnetVDot3 details record initialises, to the Fantom devnet |
| Fantom.InitializeIdempotent | packages/lib/chains/chains-ethereum/src/fantom.ts:105-122 | once initialised, initialising again with any network changes nothing |
| Fantom.FantomClass.constructor | packages/lib/chains/chains-ethereum/src/fantom.ts:58-62 | the chain and name are "Fantom", and the network is the configuration given |
| Fantom.FantomClass.Initialize | packages/lib/chains/chains-ethereum/src/fantom.ts:105-122 | the field becomes its old value or, when unset, the map's entry for the network's name; succeeds, returning the object itself, exactly when the field is then set; otherwise fails with "Unable to set Fantom network …" |
| Fantom.NewFantom | packages/lib/chains/chains-ethereum/src/fantom.ts:92-103 | construction succeeds exactly when the network resolves, and the new object holds the resolved configuration; otherwise it fails with the resolver's message |

## Left out

- Object key order: objects are sequences of entries in `Object.keys` order. JavaScript's ordering of integer-like keys first, and duplicate keys, are not modelled.
- A missing `sentence` or `typeDescription` is passed as the empty string. Both are falsy, so the source treats them alike.
- Numbers are `real`s. Floating point, `NaN` and the other `typeof` results (symbols, functions and so on) matter only through the type names they produce.
- AssertClass: `instanceof` and the prototype chain are an abstract `isInstance` predicate, and `classType.name` is a string parameter.
- The regular expressions of `isArrayType` are modelled by what they match (anchors, greedy capture, `.` excluding line terminators, `[^ ]*`), not as a regex engine.
- The bitcore `Script` class, `toAddress`, `toScriptHashOut`, HASH160 and the address encoders are not part of this model. They appear as function parameters.
  - GatewayScript.DistinctInputsDistinctAddresses therefore assumes, rather than proves, that hashing and encoding are injective.
- The byte serialisation models only the five opcodes the gateway script uses and the four push forms. Other opcodes are not decoded.
- LegacyNetworks.LowerChar lowers only the ASCII letters A–Z and maps every other character, "É" included, to itself. JavaScript's full Unicode mapping is not modelled.
- LegacyNetworks.ToLower lowers only the ASCII letters A–Z, through LowerChar.
  - This never changes which network a string resolves to. Only two non-ASCII characters lower to ASCII letters. The Kelvin sign lowers to "k", which no compared name contains. "İ" lowers to "i" followed by a combining dot, which leaves an extra character.
  - The error message uses the input as given, which the model keeps.
- The bitcore and bitcore-zcash `Networks` objects referenced by the legacy records are the abstract tokens `ForeignMainnet` and `ForeignTestnet`.
- `RenNetwork.DevnetVDot3` is used by the Fantom code, but it is not among the three members of `RenNetwork` declared in `packages/lib/interfaces/src/networks.ts`. Its value is taken to be "devnet-v0.3", a string that differs from the three known names.
- Fantom.DevnetVDot3NameUnsupported: the rejection of the DevnetVDot3 name rests on the value assumed for it. No `RenNetwork` member or `getRenNetworkDetails` case for it appears in the source. Read literally, `RenNetwork.DevnetVDot3` is `undefined`, and `resolveFantomNetwork` would throw a `TypeError` on reading `.addresses` instead.
- FantomConfigMap: keys inherited from `Object.prototype` (such as "constructor") are not modelled; only the one own key is.
- The `EthereumClass` base class, `utilsWithChainNetwork`, `Callable`, `addressIsValid` and the web3 provider are not part of this model.
  - Fantom.FantomClass.constructor assumes that the base class stores the configuration it is given as the object's network.
  - The explorer links take the same network input as `resolveFantomNetwork`.
- Fantom.FantomClass: the static members and the `legacyName`/`utils` instance fields are left out. Only `chain`, `name` and `renNetworkDetails` are kept.
