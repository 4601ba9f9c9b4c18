/**
 * The legacy RenJS network records (`NetworkMainnet`, `NetworkTestnet`,
 * `NetworkDevnet`) and `stringToNetwork`, which accepts a case-insensitive
 * network name, nothing, or a record.
 */
module LegacyNetworks {
  import opened Wrappers

  /** The members of the legacy `Network` enumeration. */
  datatype Network = Mainnet | Testnet | Devnet

  function Value(n: Network): (s: string)
    ensures s in KnownNames
  {
    match n
    case Mainnet => "mainnet"
    case Testnet => "testnet"
    case Devnet => "devnet"
  }

  /**
   * The bitcore and bitcore-zcash network objects, which live outside this
   * model: only which of the two each record refers to matters here.
   */
  datatype ForeignNetwork = ForeignMainnet | ForeignTestnet

  datatype CoinUrls = CoinUrls(btc: string, zec: string)
  datatype MasterKey = MasterKey(mpkh: string, eth: string)

  datatype NetworkDetails = NetworkDetails(
    name: string,
    lightnodeURL: string,
    mercuryURL: CoinUrls,
    chainSoName: CoinUrls,
    chainSoURL: string,
    masterKey: MasterKey,
    bitcoinNetwork: ForeignNetwork,
    zcashNetwork: ForeignNetwork,
    zBTC: string,
    BTCShifter: string)

  const NetworkMainnet := NetworkDetails(
    "mainnet", "", CoinUrls("", ""), CoinUrls("", ""), "", MasterKey("", ""),
    ForeignMainnet, ForeignMainnet, "", "")

  /**
   * The fields Testnet and Devnet share, written once and spread into each
   * record; the arguments are the fields each record sets itself.
   */
  function GeneralTestnet(name: string, lightnodeURL: string, masterKey: MasterKey,
                          zBTC: string, BTCShifter: string): NetworkDetails
  {
    NetworkDetails(
      name, lightnodeURL,
      CoinUrls("https://ren-mercury.herokuapp.com/btc-testnet3",
               "https://ren-mercury.herokuapp.com/zec-testnet"),
      CoinUrls("BTCTEST", "ZECTEST"),
      "https://chain.so/api/v2",
      masterKey,
      ForeignTestnet, ForeignTestnet,
      zBTC, BTCShifter)
  }

  const NetworkTestnet := GeneralTestnet(
    "testnet", "https://lightnode-testnet.herokuapp.com",
    MasterKey("feea966136a436e44c96335455771943452728fc", "44Bb4eF43408072bC888Afd1a5986ba0Ce35Cb54"),
    "0x1aFf7F90Bab456637a17d666D647Ea441A189F2d",
    "0x8a0E8dfC2389726DF1c0bAB874dd2C9A6031b28f")

  const NetworkDevnet := GeneralTestnet(
    "devnet", "https://lightnode-devnet.herokuapp.com",
    MasterKey("390e916c0f9022ef6cc44f05cd5094b2d9597574", "723eb4380e03df6a6f98cc1338b00cfbe5e45218"),
    "0x4eB1403f565c3e3145Afc3634F16e2F092545C2a",
    "0x7a40fE9FB464510215C41Eae1216973514eeEBB1")

  /** The record each enumeration member names. */
  function Record(n: Network): (d: NetworkDetails)
    ensures d.name == Value(n)
  {
    match n
    case Mainnet => NetworkMainnet
    case Testnet => NetworkTestnet
    case Devnet => NetworkDevnet
  }

  /** What `stringToNetwork` accepts: a string, nothing, or a record. */
  datatype NetworkArg = Str(s: string) | Nullish | Given(details: NetworkDetails)

  /** The lower-cased names the switch recognises. */
  const KnownNames: set<string> := {"", "mainnet", "testnet", "devnet"}

  /** `toLowerCase` on one character, for the ASCII letters. */
  function LowerChar(c: char): (d: char)
    ensures 'A' <= c <= 'Z' ==> 'a' <= d <= 'z' && d as int - c as int == 32
    ensures !('A' <= c <= 'Z') ==> d == c
  {
    if 'A' <= c <= 'Z' then (c as int + 32) as char else c
  }

  /** `toLowerCase`, character by character. */
  function ToLower(s: string): (r: string)
    ensures |r| == |s|
    ensures forall i :: 0 <= i < |s| ==> r[i] == LowerChar(s[i])
  {
    if s == [] then [] else [LowerChar(s[0])] + ToLower(s[1..])
  }

  lemma {:induction false} ToLowerIdempotent(s: string)
    ensures ToLower(ToLower(s)) == ToLower(s)
  {
    var l := ToLower(s);
    var ll := ToLower(l);
    assert forall i :: 0 <= i < |s| ==> ll[i] == LowerChar(LowerChar(s[i])) == l[i];
  }

  /** Strings without capital letters are their own lower case. */
  lemma {:induction false} ToLowerOfLowerCase(s: string)
    requires forall i :: 0 <= i < |s| ==> !('A' <= s[i] <= 'Z')
    ensures ToLower(s) == s
  {
    var l := ToLower(s);
    assert forall i :: 0 <= i < |s| ==> l[i] == s[i];
  }

  function UnsupportedMessage(network: string): string {
    "Unsupported network \"" + network + "\""
  }

  /**
   * `stringToNetwork`: a string is matched after lower-casing, the empty
   * string counting as mainnet; an unknown name fails with a message quoting
   * the string as given; nothing means mainnet; a record is returned as is.
   */
  function StringToNetwork(network: NetworkArg): (r: Result<NetworkDetails, string>)
    ensures network.Str? ==> (r.Success? <==> ToLower(network.s) in KnownNames)
    ensures r.Success? && network.Str? ==>
              r.value.name == (if ToLower(network.s) == "" then "mainnet" else ToLower(network.s))
    ensures r.Failure? ==> network.Str? && r.error == UnsupportedMessage(network.s)
    ensures network.Nullish? ==> r == Success(NetworkMainnet)
    ensures network.Given? ==> r == Success(network.details)
  {
    match network
    case Str(s) =>
      var lower := ToLower(s);
      if lower == "" || lower == "mainnet" then Success(NetworkMainnet)
      else if lower == "testnet" then Success(NetworkTestnet)
      else if lower == "devnet" then Success(NetworkDevnet)
      else Failure(UnsupportedMessage(s))
    case Nullish => Success(NetworkMainnet)
    case Given(d) => Success(d)
  }

  /** Names are matched regardless of case. */
  lemma CaseInsensitive(s: string, t: string)
    requires ToLower(s) == ToLower(t)
    ensures StringToNetwork(Str(s)).Success? <==> StringToNetwork(Str(t)).Success?
    ensures StringToNetwork(Str(s)).Success? ==> StringToNetwork(Str(s)) == StringToNetwork(Str(t))
  {
  }

  /** A name and its lower case resolve alike. */
  lemma {:induction false} ResolvesLikeLowerCase(s: string)
    ensures StringToNetwork(Str(s)).Success? ==> StringToNetwork(Str(s)) == StringToNetwork(Str(ToLower(s)))
  {
    ToLowerIdempotent(s);
  }

  /** For instance, "TestNet" resolves like "testnet". */
  lemma MixedCaseExample()
    ensures StringToNetwork(Str("TestNet")) == Success(NetworkTestnet)
  {
    assert ToLower("TestNet") == "testnet";
  }

  /** Every enumeration value resolves to its own record. */
  lemma {:induction false} EveryNetworkResolves(n: Network)
    ensures StringToNetwork(Str(Value(n))) == Success(Record(n))
  {
    ToLowerOfLowerCase(Value(n));
    match n
    case Mainnet => assert ToLower("mainnet") == "mainnet";
    case Testnet => assert ToLower("testnet") == "testnet";
    case Devnet => assert ToLower("devnet") == "devnet";
  }

  lemma {:induction false} EmptyIsMainnet()
    ensures StringToNetwork(Str("")) == Success(NetworkMainnet)
    ensures StringToNetwork(Nullish) == Success(NetworkMainnet)
  {
    assert ToLower("") == "";
  }

  /** Testnet and Devnet share the general testnet fields and differ in all others. */
  lemma TestnetDevnetShareGeneralFields()
    ensures NetworkTestnet.mercuryURL == NetworkDevnet.mercuryURL
    ensures NetworkTestnet.chainSoName == NetworkDevnet.chainSoName
    ensures NetworkTestnet.chainSoURL == NetworkDevnet.chainSoURL
    ensures NetworkTestnet.bitcoinNetwork == NetworkDevnet.bitcoinNetwork == ForeignTestnet
    ensures NetworkTestnet.zcashNetwork == NetworkDevnet.zcashNetwork == ForeignTestnet
    ensures NetworkTestnet.name != NetworkDevnet.name
    ensures NetworkTestnet.lightnodeURL != NetworkDevnet.lightnodeURL
    ensures NetworkTestnet.masterKey != NetworkDevnet.masterKey
    ensures NetworkTestnet.zBTC != NetworkDevnet.zBTC
    ensures NetworkTestnet.BTCShifter != NetworkDevnet.BTCShifter
  {
  }

  /** The three records are pairwise distinct, so the name decides the record. */
  lemma RecordInjective(m: Network, n: Network)
    ensures Record(m) == Record(n) <==> m == n
  {
  }
}
