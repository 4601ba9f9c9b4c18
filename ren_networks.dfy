/**
 * The RenVM network names and their built-in details records, and the
 * resolution of a network name (or an already-resolved details record)
 * into details.
 */
module RenNetworks {

  /** The three members of the `RenNetwork` enumeration. */
  datatype RenNetwork = Mainnet | Testnet | Devnet

  /** The string each enumeration member stands for at run time. */
  function Value(n: RenNetwork): (s: string)
    ensures IsRenNetworkString(s)
  {
    match n
    case Mainnet => "mainnet"
    case Testnet => "testnet"
    case Devnet => "devnet"
  }

  /** Distinct members stand for distinct strings. */
  lemma ValueInjective(m: RenNetwork, n: RenNetwork)
    ensures Value(m) == Value(n) <==> m == n
  {
  }

  /** The `RenNetworkString` union type: exactly the enumeration's values. */
  predicate IsRenNetworkString(s: string) {
    s == "mainnet" || s == "testnet" || s == "devnet"
  }

  datatype RenNetworkDetails = RenNetworkDetails(name: string, lightnode: string, isTestnet: bool)

  const RenMainnet := RenNetworkDetails("mainnet", "https://lightnode-new-mainnet.herokuapp.com", false)
  const RenTestnet := RenNetworkDetails("testnet", "https://lightnode-new-testnet.herokuapp.com", true)
  const RenDevnet := RenNetworkDetails("devnet", "https://lightnode-devnet.herokuapp.com", true)

  /**
   * What a caller may pass: a network name (an enumeration value, a
   * `RenNetworkString`, or, since nothing checks it at run time, any other
   * string) or a details record.
   */
  datatype RenNetworkArg = Named(name: string) | Given(details: RenNetworkDetails)

  /** The built-in record for a known network. */
  function Details(n: RenNetwork): (d: RenNetworkDetails)
    ensures d.name == Value(n)
    ensures d.isTestnet <==> n != Mainnet
  {
    match n
    case Mainnet => RenMainnet
    case Testnet => RenTestnet
    case Devnet => RenDevnet
  }

  /**
   * `getRenNetworkDetails`: the switch compares by strict equality, so only
   * the three exact names are replaced by their records; every other input,
   * an unknown string included, falls through the default branch unchanged.
   */
  function GetRenNetworkDetails(arg: RenNetworkArg): (r: RenNetworkArg)
    ensures r.Given? <==> arg.Given? || IsRenNetworkString(arg.name)
    ensures arg.Named? && IsRenNetworkString(arg.name) ==>
              r.details.name == arg.name && (r.details.isTestnet <==> arg.name != "mainnet")
    ensures !(arg.Named? && IsRenNetworkString(arg.name)) ==> r == arg
  {
    match arg
    case Named(s) =>
      if s == Value(Mainnet) then Given(Details(Mainnet))
      else if s == Value(Testnet) then Given(Details(Testnet))
      else if s == Value(Devnet) then Given(Details(Devnet))
      else arg
    case Given(_) => arg
  }

  /** `RenNetworks`: the enumeration's members in declaration order. */
  const RenNetworksList: seq<RenNetwork> := [Mainnet, Testnet, Devnet]

  lemma RenNetworksListsEveryNetworkOnce()
    ensures forall n: RenNetwork :: n in RenNetworksList
    ensures forall i, j :: 0 <= i < j < |RenNetworksList| ==> RenNetworksList[i] != RenNetworksList[j]
    ensures forall s :: IsRenNetworkString(s) <==> exists i :: 0 <= i < |RenNetworksList| && Value(RenNetworksList[i]) == s
  {
    forall n: RenNetwork
      ensures n in RenNetworksList
    {
      match n
      case Mainnet => assert RenNetworksList[0] == n;
      case Testnet => assert RenNetworksList[1] == n;
      case Devnet => assert RenNetworksList[2] == n;
    }
    forall s | IsRenNetworkString(s)
      ensures exists i :: 0 <= i < |RenNetworksList| && Value(RenNetworksList[i]) == s
    {
      if s == "mainnet" {
        assert Value(RenNetworksList[0]) == s;
      } else if s == "testnet" {
        assert Value(RenNetworksList[1]) == s;
      } else {
        assert Value(RenNetworksList[2]) == s;
      }
    }
  }

  /** Every enumeration member resolves to its own record, named after it. */
  lemma EveryNetworkResolves(n: RenNetwork)
    ensures GetRenNetworkDetails(Named(Value(n))) == Given(Details(n))
  {
  }

  /** Resolving what was already resolved changes nothing. */
  lemma GetRenNetworkDetailsIdempotent(arg: RenNetworkArg)
    ensures GetRenNetworkDetails(GetRenNetworkDetails(arg)) == GetRenNetworkDetails(arg)
  {
  }

  /**
   * Resolution never invents a name: the resolved record, or the string
   * passed through, carries the name the caller gave.
   */
  lemma ResolvedNameIsInputName(s: string)
    ensures var r := GetRenNetworkDetails(Named(s));
            (r.Given? && r.details.name == s) || r == Named(s)
  {
  }
}
