/**
 * The Fantom chain: resolving a RenVM network (or a ready-made Ethereum-style
 * configuration) into the Fantom configuration, the block-explorer links,
 * and the `FantomClass` object whose `initialize` fills in its network.
 */
module Fantom {
  import opened Wrappers
  import opened RenNetworks

  datatype ContractAddresses = ContractAddresses(gatewayRegistry: string, basicAdapter: string)

  /** An `EthereumConfig` record: always carries its `addresses`. */
  datatype EthereumConfig = EthereumConfig(
    name: string,
    chain: string,
    isTestnet: bool,
    chainLabel: string,
    networkID: nat,
    infura: string,
    etherscan: string,
    addresses: ContractAddresses)

  const RenFantomDevnet := EthereumConfig(
    "Fantom Devnet", "fantomDevnet", true, "Fantom Devnet", 0xfa2,
    "https://rpc.testnet.fantom.network/",
    "https://explorer.testnet.fantom.network/",
    ContractAddresses("0xD881213F5ABF783d93220e6bD3Cc21706A8dc1fC",
                      "0xD087b0540e172553c12DEEeCDEf3dFD21Ec02066"))

  /**
   * The string value of `RenNetwork.DevnetVDot3`. That enumeration member is
   * not among the three of `RenNetwork` in this model; its value is taken as
   * the conventional "devnet-v0.3".
   */
  const DevnetVDot3 := "devnet-v0.3"

  /** `FantomConfigMap`: one entry, keyed by the DevnetVDot3 name. */
  const FantomConfigMap: map<string, EthereumConfig> := map[DevnetVDot3 := RenFantomDevnet]

  /** What the resolver and the constructor accept. */
  datatype FantomNetworkArg = RenArg(arg: RenNetworkArg) | EthConfig(config: EthereumConfig)

  /** How a resolved RenVM network reads when interpolated into a message. */
  function Interpolated(resolved: RenNetworkArg): string {
    match resolved
    case Named(s) => s
    case Given(_) => "[object Object]"
  }

  function UnsupportedMessage(resolved: RenNetworkArg): string {
    "Unsupported network " + Interpolated(resolved)
  }

  /**
   * `resolveFantomNetwork`: a configuration (recognised by its `addresses`)
   * is returned as is; otherwise the RenVM network is resolved and only a
   * testnet record named DevnetVDot3 maps to the Fantom devnet. A name that
   * `getRenNetworkDetails` passes through as a string has no `isTestnet`,
   * so it fails too.
   */
  function ResolveFantomNetwork(network: FantomNetworkArg): (r: Result<EthereumConfig, string>)
    ensures network.EthConfig? ==> r == Success(network.config)
    ensures network.RenArg? ==>
              (r.Success? <==> IsFantomDevnetDetails(GetRenNetworkDetails(network.arg)))
    ensures network.RenArg? && r.Success? ==> r.value == RenFantomDevnet
    ensures r.Failure? ==>
              network.RenArg? && r.error == UnsupportedMessage(GetRenNetworkDetails(network.arg))
  {
    match network
    case EthConfig(config) => Success(config)
    case RenArg(arg) =>
      var details := GetRenNetworkDetails(arg);
      if details.Given? && details.details.isTestnet && details.details.name == DevnetVDot3 then
        Success(RenFantomDevnet)
      else
        Failure(UnsupportedMessage(details))
  }

  predicate IsFantomDevnetDetails(resolved: RenNetworkArg) {
    resolved.Given? && resolved.details.isTestnet && resolved.details.name == DevnetVDot3
  }

  /** None of the three RenVM networks has a Fantom configuration. */
  lemma StandardNetworksUnsupported(n: RenNetwork)
    ensures ResolveFantomNetwork(RenArg(Named(Value(n))))
            == Failure(UnsupportedMessage(Given(Details(n))))
    ensures Interpolated(Given(Details(n))) == "[object Object]"
  {
    EveryNetworkResolves(n);
    assert Details(n).name != DevnetVDot3;
  }

  /**
   * The DevnetVDot3 name itself, passed as a string, falls through
   * `getRenNetworkDetails` unchanged and is then rejected.
   */
  lemma DevnetVDot3NameUnsupported()
    ensures ResolveFantomNetwork(RenArg(Named(DevnetVDot3)))
            == Failure(UnsupportedMessage(Named(DevnetVDot3)))
  {
  }

  /** Only a testnet details record named DevnetVDot3 is accepted. */
  lemma DevnetVDot3DetailsSupported(lightnode: string)
    ensures ResolveFantomNetwork(RenArg(Given(RenNetworkDetails(DevnetVDot3, lightnode, true))))
            == Success(RenFantomDevnet)
    ensures ResolveFantomNetwork(RenArg(Given(RenNetworkDetails(DevnetVDot3, lightnode, false))))
            == Failure(UnsupportedMessage(Given(RenNetworkDetails(DevnetVDot3, lightnode, false))))
  {
  }

  /** Resolving a resolved configuration gives it back. */
  lemma ResolveFantomNetworkIdempotent(network: FantomNetworkArg)
    requires ResolveFantomNetwork(network).Success?
    ensures ResolveFantomNetwork(EthConfig(ResolveFantomNetwork(network).value))
            == ResolveFantomNetwork(network)
  {
  }

  /**
   * A link on the explorer of the resolved network (the Fantom devnet when
   * none is given): the explorer's base, then `path`, then the item. The
   * `|| renFantomDevnet` fallback never applies, since resolution either
   * fails or yields a configuration.
   */
  function ExplorerLink(path: string, item: string, network: Option<FantomNetworkArg>): (r: Result<string, string>)
    ensures var resolved := ResolveFantomNetwork(if network.None? then EthConfig(RenFantomDevnet) else network.value);
            && (r.Success? <==> resolved.Success?)
            && (r.Success? ==> r.value == resolved.value.etherscan + path + item)
            && (r.Failure? ==> r.error == resolved.error)
  {
    var resolved := ResolveFantomNetwork(if network.None? then EthConfig(RenFantomDevnet) else network.value);
    match resolved
    case Success(config) => Success(config.etherscan + path + item)
    case Failure(e) => Failure(e)
  }

  function AddressExplorerLink(address: string, network: Option<FantomNetworkArg>): (r: Result<string, string>)
    ensures var resolved := ResolveFantomNetwork(if network.None? then EthConfig(RenFantomDevnet) else network.value);
            && (r.Success? <==> resolved.Success?)
            && (r.Success? ==> r.value == resolved.value.etherscan + "/address/" + address)
            && (r.Failure? ==> r.error == resolved.error)
  {
    ExplorerLink("/address/", address, network)
  }

  function TransactionExplorerLink(transaction: string, network: Option<FantomNetworkArg>): (r: Result<string, string>)
    ensures var resolved := ResolveFantomNetwork(if network.None? then EthConfig(RenFantomDevnet) else network.value);
            && (r.Success? <==> resolved.Success?)
            && (r.Success? ==> r.value == resolved.value.etherscan + "/tx/" + transaction)
            && (r.Failure? ==> r.error == resolved.error)
  {
    ExplorerLink("/tx/", transaction, network)
  }

  /** The item can be read back from the end of a link. */
  lemma ExplorerLinkEndsWithItem(path: string, item: string, network: Option<FantomNetworkArg>)
    requires ExplorerLink(path, item, network).Success?
    ensures var link := ExplorerLink(path, item, network).value;
            |link| >= |item| && link[|link| - |item|..] == item
  {
    var link := ExplorerLink(path, item, network).value;
    var resolved := ResolveFantomNetwork(if network.None? then EthConfig(RenFantomDevnet) else network.value);
    var prefix := resolved.value.etherscan + path;
    assert link == prefix + item;
    assert link[|prefix|..] == item;
  }

  /** Without a network, links point at the Fantom devnet explorer. */
  lemma DefaultExplorerLinks(address: string, transaction: string)
    ensures AddressExplorerLink(address, None)
            == Success("https://explorer.testnet.fantom.network/" + "/address/" + address)
    ensures TransactionExplorerLink(transaction, None)
            == Success("https://explorer.testnet.fantom.network/" + "/tx/" + transaction)
  {
  }

  /** The address and transaction links of one network differ only after the base. */
  lemma LinksShareBase(address: string, transaction: string, network: Option<FantomNetworkArg>)
    requires AddressExplorerLink(address, network).Success?
    ensures TransactionExplorerLink(transaction, network).Success?
    ensures var base := ResolveFantomNetwork(if network.None? then EthConfig(RenFantomDevnet) else network.value).value.etherscan;
            && AddressExplorerLink(address, network).value[..|base|] == base
            && TransactionExplorerLink(transaction, network).value[..|base|] == base
  {
    var base := ResolveFantomNetwork(if network.None? then EthConfig(RenFantomDevnet) else network.value).value.etherscan;
    assert AddressExplorerLink(address, network).value == base + ("/address/" + address);
    assert TransactionExplorerLink(transaction, network).value == base + ("/tx/" + transaction);
  }

  /** The name `initialize` looks up: a string passed through has no `name`. */
  function LookupName(resolved: RenNetworkArg): Option<string> {
    if resolved.Given? then Some(resolved.details.name) else None
  }

  /** `FantomConfigMap[getRenNetworkDetails(renNetwork).name]`. */
  function ConfigFor(renNetwork: RenNetworkArg): (r: Option<EthereumConfig>)
    ensures r.Some? <==> IsFantomDevnetName(GetRenNetworkDetails(renNetwork))
    ensures r.Some? ==> r.value == RenFantomDevnet
  {
    var name := LookupName(GetRenNetworkDetails(renNetwork));
    if name.Some? && name.value in FantomConfigMap then Some(FantomConfigMap[name.value]) else None
  }

  predicate IsFantomDevnetName(resolved: RenNetworkArg) {
    resolved.Given? && resolved.details.name == DevnetVDot3
  }

  /** The network field after `initialize`: kept when set, otherwise looked up. */
  function InitializedDetails(current: Option<EthereumConfig>, renNetwork: RenNetworkArg): Option<EthereumConfig> {
    if current.Some? then current else ConfigFor(renNetwork)
  }

  lemma InitializeKeepsSetDetails(config: EthereumConfig, renNetwork: RenNetworkArg)
    ensures InitializedDetails(Some(config), renNetwork) == Some(config)
  {
  }

  /** From an unset field, only a DevnetVDot3 details record initialises. */
  lemma InitializeFromUnset(renNetwork: RenNetworkArg)
    ensures InitializedDetails(None, renNetwork).Some? <==>
              renNetwork.Given? && renNetwork.details.name == DevnetVDot3
    ensures InitializedDetails(None, renNetwork).Some? ==>
              InitializedDetails(None, renNetwork) == Some(RenFantomDevnet)
  {
    if renNetwork.Named? {
      assert GetRenNetworkDetails(renNetwork).Given? ==> GetRenNetworkDetails(renNetwork).details.name != DevnetVDot3;
    }
  }

  /** Once initialised, initialising again with any network changes nothing. */
  lemma InitializeIdempotent(current: Option<EthereumConfig>, first: RenNetworkArg, second: RenNetworkArg)
    requires InitializedDetails(current, first).Some?
    ensures InitializedDetails(InitializedDetails(current, first), second) == InitializedDetails(current, first)
  {
  }

  /** How the network name appears in the `initialize` error message. */
  function NameForMessage(renNetwork: RenNetworkArg): string {
    var name := LookupName(GetRenNetworkDetails(renNetwork));
    if name.Some? then name.value else "undefined"
  }

  function UnableMessage(chainName: string, renNetwork: RenNetworkArg): string {
    "Unable to set " + chainName + " network for RenVM network " + NameForMessage(renNetwork)
    + ". Please provide " + chainName + " network details to " + chainName + " constructor."
  }

  class FantomClass {
    const chain: string
    const name: string
    var renNetworkDetails: Option<EthereumConfig>

    /**
     * The constructor hands the resolved configuration to the Ethereum base
     * class, which keeps it as the object's network.
     */
    constructor (config: EthereumConfig)
      ensures chain == "Fantom" && name == "Fantom"
      ensures renNetworkDetails == Some(config)
    {
      chain := "Fantom";
      name := "Fantom";
      renNetworkDetails := Some(config);
    }

    /**
     * `initialize`: keeps a network already set, otherwise takes the one
     * `FantomConfigMap` has for the RenVM network's name; fails when neither
     * gives one, and returns the object itself otherwise.
     */
    method Initialize(renNetwork: RenNetworkArg) returns (r: Result<FantomClass, string>)
      modifies this
      ensures renNetworkDetails == InitializedDetails(old(renNetworkDetails), renNetwork)
      ensures r.Success? <==> renNetworkDetails.Some?
      ensures r.Success? ==> r.value == this
      ensures r.Failure? ==> r.error == UnableMessage(name, renNetwork)
    {
      if renNetworkDetails.None? {
        renNetworkDetails := ConfigFor(renNetwork);
      }
      if renNetworkDetails.None? {
        return Failure(UnableMessage(name, renNetwork));
      }
      return Success(this);
    }
  }

  /**
   * `new FantomClass(web3Provider, renNetwork)`: resolves the network first,
   * so an unsupported one makes construction fail.
   */
  method NewFantom(renNetwork: FantomNetworkArg) returns (r: Result<FantomClass, string>)
    ensures r.Success? <==> ResolveFantomNetwork(renNetwork).Success?
    ensures r.Success? ==> fresh(r.value) && r.value.renNetworkDetails == Some(ResolveFantomNetwork(renNetwork).value)
    ensures r.Failure? ==> r.error == ResolveFantomNetwork(renNetwork).error
  {
    var resolved := ResolveFantomNetwork(renNetwork);
    if resolved.Failure? {
      return Failure(resolved.error);
    }
    var fantom := new FantomClass(resolved.value);
    return Success(fantom);
  }
}
