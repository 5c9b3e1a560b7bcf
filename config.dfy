/**
 * The GrowScratch configuration object as immutable constants. In the
 * program the object is frozen only one level deep (the prize list, the
 * prize records and the endpoint table stay writable). Neither `utils.js`
 * nor `config.js` writes them; assuming the rest of the client does not
 * either, they are constants here.
 */
module Config {

  /** One entry of the prize table. */
  datatype Prize = Prize(id: int, name: string, rarity: string, image: string)

  // Backend endpoints, relative to the base URL.
  const BaseUrl: string := "https://your-backend.workers.dev"
  const CreateInvoiceEndpoint: string := "/api/create-invoice"
  const VerifyPaymentEndpoint: string := "/api/verify-payment"
  const GenerateResultEndpoint: string := "/api/generate-result"
  const VerifyTonPaymentEndpoint: string := "/api/verify-ton-payment"
  const MintNftEndpoint: string := "/api/mint-nft"

  // TON blockchain.
  const Network: string := "mainnet"
  /** Placeholder for the deployed NFT collection address. */
  const CollectionAddress: string := "EQ..."
  const RpcEndpoint: string := "https://toncenter.com/api/v2/jsonRPC"
  const ExplorerUrl: string := "https://tonscan.org"
  /** One TON, as a decimal string of nanotons. */
  const MintAmount: string := "1000000000"
  /** One TON is 10^9 nanotons. */
  const NanotonsPerTon: nat := 1_000_000_000

  // TON Connect.
  const ManifestUrl: string := "https://marcone1983.github.io/GrowScratch/tonconnect-manifest.json"
  const ButtonRootId: string := "ton-connect-button"

  // Game.
  /** Telegram Stars charged for one play. */
  const StarsCost: nat := 25
  /** The advertised win rate, 20%; neither `utils.js` nor `config.js` reads it. */
  const WinRate: real := 0.20
  /** Fraction of the card that must be scratched to reveal it. */
  const ScratchThreshold: real := 0.70

  /** The rarities a prize may carry, rarest first. */
  const Rarities: seq<string> := ["Legendary", "Epic", "Rare", "Uncommon", "Common"]

  const Prizes: seq<Prize> := [
    Prize(1, "Legendary Dragon NFT", "Legendary", "assets/prizes/prize-1.png"),
    Prize(2, "Epic Phoenix NFT", "Epic", "assets/prizes/prize-2.png"),
    Prize(3, "Rare Unicorn NFT", "Rare", "assets/prizes/prize-3.png"),
    Prize(4, "Uncommon Griffin NFT", "Uncommon", "assets/prizes/prize-4.png"),
    Prize(5, "Common Wolf NFT", "Common", "assets/prizes/prize-5.png"),
    Prize(6, "Legendary Kraken NFT", "Legendary", "assets/prizes/prize-6.png"),
    Prize(7, "Epic Cerberus NFT", "Epic", "assets/prizes/prize-7.png"),
    Prize(8, "Rare Pegasus NFT", "Rare", "assets/prizes/prize-8.png"),
    Prize(9, "Uncommon Hydra NFT", "Uncommon", "assets/prizes/prize-9.png")
  ]

  // User interface timings, in milliseconds.
  const SplashDuration: nat := 2000
  const AnimationDuration: nat := 300
  const ToastDuration: nat := 3000
  /** The polling interval for payment verification. */
  const PollingInterval: nat := 2000

  // User-facing messages.
  const NetworkError: string := "Errore di connessione. Verifica la tua connessione internet e riprova."
  const PaymentFailed: string := "Pagamento fallito. Riprova o contatta il supporto."
  const WalletNotConnected: string := "Connetti il wallet per continuare."
  const TransactionRejected: string := "Transazione rifiutata dal wallet."
  const MintingFailed: string := "Errore durante il minting dell'NFT. Contatta il supporto con il tuo game ID."
  const InvalidState: string := "Stato non valido. Ricarica la pagina."
  const TelegramNotAvailable: string := "Questa app funziona solo all'interno di Telegram."
  const InitDataInvalid: string := "Dati di inizializzazione non validi."
  const RateLimit: string := "Troppe richieste. Attendi un momento e riprova."
  const PaymentCompleted: string := "Pagamento completato con successo!"
  const NftMinted: string := "NFT mintato e inviato al tuo wallet!"
  const WalletConnected: string := "Wallet connesso con successo!"

  // Development mode and logging.
  const DevMode: bool := false
  const EnableLogging: bool := true
  /** One of "debug", "info", "warn", "error". */
  const LogLevel: string := "info"

  /** The prize table has nine entries whose ids are 1 to 9 in order. */
  lemma PrizeIdsAreOneToNine()
    ensures |Prizes| == 9
    ensures forall i :: 0 <= i < |Prizes| ==> Prizes[i].id == i + 1
  {
  }

  /** No two prizes share an id. */
  lemma PrizeIdsDistinct()
    ensures forall i, j :: 0 <= i < j < |Prizes| ==> Prizes[i].id != Prizes[j].id
  {
  }

  /** Every prize carries one of the five known rarities. */
  lemma PrizeRaritiesKnown()
    ensures forall i :: 0 <= i < |Prizes| ==> Prizes[i].rarity in Rarities
  {
  }

  /** The value of a string of decimal digits. */
  function DecimalValue(s: string): (n: nat)
    requires forall i :: 0 <= i < |s| ==> '0' <= s[i] <= '9'
    ensures s == [] ==> n == 0
    decreases |s|
  {
    if s == [] then 0
    else DecimalValue(s[..|s| - 1]) * 10 + (s[|s| - 1] - '0') as nat
  }

  function Pow10(k: nat): (n: nat)
    ensures n >= 1
  {
    if k == 0 then 1 else 10 * Pow10(k - 1)
  }

  /** "1" followed by k zeros denotes 10^k. */
  lemma {:induction false} OneFollowedByZeros(k: nat)
    ensures var s := "1" + seq(k, _ => '0');
            (forall i :: 0 <= i < |s| ==> '0' <= s[i] <= '9') && DecimalValue(s) == Pow10(k)
  {
    var s := "1" + seq(k, _ => '0');
    if k > 0 {
      OneFollowedByZeros(k - 1);
      assert s[..|s| - 1] == "1" + seq(k - 1, _ => '0');
    }
  }

  /** The mint amount is a decimal string denoting exactly one TON. */
  lemma MintAmountIsOneTon()
    ensures forall i :: 0 <= i < |MintAmount| ==> '0' <= MintAmount[i] <= '9'
    ensures DecimalValue(MintAmount) == NanotonsPerTon == Pow10(9)
  {
    OneFollowedByZeros(9);
    assert MintAmount == "1" + seq(9, _ => '0');
  }

  /** The play cost, the polling pause and the logging switches. */
  lemma ConfiguredValues()
    ensures StarsCost == 25
    ensures PollingInterval == 2000
    ensures EnableLogging && LogLevel == "info"
  {
  }
}
