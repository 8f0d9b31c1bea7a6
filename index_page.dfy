/** The betting page: the block-explorer fetch and its update rule, the
    wallet address and its persisted copy, the 16-tile betting grid and the
    bet confirmation dialog. Network, wallet and contract calls are not
    modelled; what they answer is a parameter of the method that awaits it. */
module IndexPage {
  import opened JsText
  import opened BlockchainInfo

  // ---------------------------------------------------------------------
  // Block data from the explorer.
  // ---------------------------------------------------------------------

  /** One element of the response's `data` array, after `Number(...)`
      coercion: `None` stands for `NaN`/`undefined`. `timeMillis` is what
      `new Date(block.time).getTime()` gives. */
  datatype RawBlock = RawBlock(
    id: Option<int>,
    hash: Option<string>,
    timeMillis: Option<real>,
    size: Option<real>,
    weight: Option<real>,
    feePerKb: Option<real>,
    feeTotal: Option<real>,
    reward: Option<real>,
    guessedMiner: Option<string>)

  /** The `data` field of the parsed response. */
  datatype ResponseData = Missing | NotAnArray | Items(blocks: seq<RawBlock>)

  /** The awaited `fetch(...)` and `response.json()`: either one of them
      threw, or the body was parsed. */
  datatype FetchResult = Failed | Received(data: ResponseData)

  /** The request asks the explorer for `limit=16` blocks. */
  const RequestLimit: nat := 16
  /** Placeholder values the page writes into every block. */
  const PlaceholderHealth: real := 99.88
  const PlaceholderFeeRange: (real, real) := (4.0, 178.0)
  const SatoshisPerBitcoin: real := 100000000.0

  /** Division of a number that may be `NaN`: `NaN` stays `NaN`. */
  function Divide(x: Option<real>, d: real): (r: Option<real>)
    requires d > 0.0
    ensures r.None? <==> x.None?
    ensures r.Some? ==> r.value * d == x.value
  {
    if x.None? then None else Some(x.value / d)
  }

  /** The `map` callback that turns an explorer record into a block. */
  function Normalise(raw: RawBlock): (b: BlockInfo)
    ensures b.height == raw.id
    ensures b.hash == raw.hash && b.miner == raw.guessedMiner
    ensures b.size == raw.size && b.weight == raw.weight
    ensures b.health == Some(PlaceholderHealth) && b.feeRange == Some(PlaceholderFeeRange)
    ensures b.timestamp.Some? <==> raw.timeMillis.Some?
    ensures b.timestamp.Some? ==> b.timestamp.value * 1000.0 == raw.timeMillis.value
    ensures b.medianFee.Some? <==> raw.feePerKb.Some?
    ensures b.totalFee.Some? <==> raw.feeTotal.Some?
    ensures b.reward.Some? <==> raw.reward.Some?
    ensures b.medianFee.Some? ==> b.medianFee.value * 1000.0 == raw.feePerKb.value
    ensures b.totalFee.Some? ==> b.totalFee.value * SatoshisPerBitcoin == raw.feeTotal.value
    ensures b.reward.Some? ==> b.reward.value * SatoshisPerBitcoin == raw.reward.value
  {
    BlockInfo(
      height := raw.id,
      hash := raw.hash,
      timestamp := Divide(raw.timeMillis, 1000.0),
      size := raw.size,
      weight := raw.weight,
      health := Some(PlaceholderHealth),
      feeRange := Some(PlaceholderFeeRange),
      medianFee := Divide(raw.feePerKb, 1000.0),
      totalFee := Divide(raw.feeTotal, SatoshisPerBitcoin),
      reward := Divide(raw.reward, SatoshisPerBitcoin),
      miner := raw.guessedMiner)
  }

  /** `data.data.map(...)`: one block per record, in the same order. */
  function NormaliseAll(raws: seq<RawBlock>): (bs: seq<BlockInfo>)
    ensures |bs| == |raws|
    ensures forall i :: 0 <= i < |bs| ==> bs[i] == Normalise(raws[i])
  {
    if raws == [] then [] else [Normalise(raws[0])] + NormaliseAll(raws[1..])
  }

  /** `blocks[0]?.height` is truthy: present, not `NaN` and not zero. */
  predicate TruthyHeight(h: Option<int>)
  {
    h.Some? && h.value != 0
  }

  /** Whether a fetch replaces the blocks: the response has a non-empty
      `data` array whose first block has a truthy height. */
  predicate Accepted(fetch: FetchResult)
  {
    && fetch.Received? && fetch.data.Items? && |fetch.data.blocks| > 0
    && TruthyHeight(fetch.data.blocks[0].id)
  }

  /** The blocks the page holds. */
  datatype Blocks = Blocks(current: BlockInfo, historical: seq<BlockInfo>)

  /** The effect of `fetchBlockchainData` on the blocks: an accepted
      response makes its first block current and the rest history; any
      other outcome leaves the blocks as they were. */
  function Refresh(held: Blocks, fetch: FetchResult): (r: Blocks)
    ensures !Accepted(fetch) ==> r == held
    ensures Accepted(fetch) ==>
      var raws := fetch.data.blocks;
      && r.current == Normalise(raws[0])
      && |r.historical| == |raws| - 1
      && forall i :: 0 <= i < |r.historical| ==> r.historical[i] == Normalise(raws[i + 1])
  {
    if Accepted(fetch) then
      var blocks := NormaliseAll(fetch.data.blocks);
      Blocks(blocks[0], blocks[1..])
    else held
  }

  /** Missing, non-array or empty data, a failed request and a falsy first
      height all leave the blocks unchanged. */
  lemma RejectedResponses(held: Blocks, raws: seq<RawBlock>)
    ensures Refresh(held, Failed) == held
    ensures Refresh(held, Received(Missing)) == held
    ensures Refresh(held, Received(NotAnArray)) == held
    ensures Refresh(held, Received(Items([]))) == held
    ensures |raws| > 0 && !TruthyHeight(raws[0].id) ==> Refresh(held, Received(Items(raws))) == held
  {
  }

  /** A response of at most `limit = 16` records leaves at most 15 in the
      history; one of 17 records leaves 16, none of them the current one. */
  lemma HistoryLength(held: Blocks, raws: seq<RawBlock>)
    requires |raws| > 0 && TruthyHeight(raws[0].id)
    ensures var r := Refresh(held, Received(Items(raws)));
      && |r.historical| == |raws| - 1
      && (|raws| <= RequestLimit ==> |r.historical| <= RequestLimit - 1)
      && (|raws| == RequestLimit + 1 ==> |r.historical| == RequestLimit)
      && (forall i :: 0 <= i < |r.historical| ==> r.historical[i].hash == raws[i + 1].hash)
      && r.current.hash == raws[0].hash
  {
  }

  /** After an accepted fetch the details popover shows the placeholder
      fee range 4 - 178 whenever there is a history at all. */
  lemma DetailsShowPlaceholderFeeRange(held: Blocks, raws: seq<RawBlock>)
    requires |raws| > 1 && TruthyHeight(raws[0].id)
    ensures DetailsOf(Refresh(held, Received(Items(raws))).historical).feeRange
      == Range(Figure(4.0, SatoshisPerByte), Figure(178.0, SatoshisPerByte))
  {
  }

  // ---------------------------------------------------------------------
  // Pure view helpers.
  // ---------------------------------------------------------------------

  const HexDigits: string := "0123456789abcdef"

  /** The label of tile `i` of the grid: `i.toString()` up to 9, then
      `String.fromCharCode(87 + i)`. */
  function TagLabel(i: nat): (r: string)
    requires i < 16
    ensures |r| == 1 && r[0] == HexDigits[i]
    ensures i <= 9 ==> IsDigit(r[0]) && DigitValue(r[0]) == i
    ensures i > 9 ==> 'a' <= r[0] <= 'f' && r[0] as int - 'a' as int + 10 == i
  {
    if i <= 9 then Decimal(i) else [(87 + i) as char]
  }

  /** The value a lowercase hexadecimal digit stands for. */
  function HexValue(c: char): nat
  {
    if IsDigit(c) then DigitValue(c) else if 'a' <= c <= 'f' then c as int - 'a' as int + 10 else 0
  }

  /** Reading a tile's label as a hexadecimal digit gives the tile's index;
      the sixteen labels are pairwise distinct. */
  lemma TagLabelRoundTrip(i: nat, j: nat)
    requires i < 16 && j < 16
    ensures HexValue(TagLabel(i)[0]) == i
    ensures i != j ==> TagLabel(i) != TagLabel(j)
  {
  }

  /** The header button: `'Connect Wallet'` without an account, otherwise
      the first six and the last four characters around an ellipsis. */
  function AccountLabel(account: string): (r: string)
    ensures account == "" ==> r == "Connect Wallet"
    ensures |account| >= 10 ==>
      |r| == 13 && r[..6] == account[..6] && r[6..9] == "..." && r[9..] == account[|account| - 4..]
    ensures 0 < |account| <= 4 ==> r == account + "..." + account
    ensures account != "" ==>
      var k := if |account| < 6 then |account| else 6;
      var t := if |account| < 4 then |account| else 4;
      r == account[..k] + "..." + account[|account| - t..]
  {
    if account == "" then "Connect Wallet"
    else SliceHead(account, 6) + "..." + SliceTail(account, 4)
  }

  // ---------------------------------------------------------------------
  // Page state.
  // ---------------------------------------------------------------------

  /** The wallet's answer to `eth_requestAccounts`: no `window.ethereum`,
      the request threw, or it granted accounts (the first one is used). */
  datatype WalletReply = NoProvider | Refused | Granted(first: string)

  /** The outcome of a bet once the provider is there: `parseUnits` rejects
      the typed amount before the contract is reached, or the awaited
      `contract.placeBet(...)` and `tx.wait()` confirm, or they throw. Each
      error carries its `message` (possibly empty). */
  datatype TxResult = BadAmount(reason: string) | Confirmed | Reverted(message: string)

  /** The toast text of an error: its message, or the default when empty. */
  function FailureText(message: string): (r: string)
    ensures message != "" ==> r == message
    ensures message == "" ==> r == "Failed to place bet"
  {
    if message == "" then "Failed to place bet" else message
  }

  /** What the page shows in a toast. */
  datatype Toast =
    | WalletConnected | MetaMaskRequired | WalletFailed
    | BetPlaced | BetFailed(description: string)

  /** What the contract is asked for: the tile as a one-byte tag and the
      amount exactly as typed. */
  datatype BetCall = BetCall(tag: nat, amount: string)

  /** `!account || selectedTag === null || !betAmount`, negated: tile 0 is a
      valid choice, only the absence of a choice is not. */
  predicate ReadyToBet(account: string, tag: Option<nat>, amount: string)
  {
    account != "" && tag.Some? && amount != ""
  }

  /** The guard tests the tag with `=== null`, so tile 0 is a choice like
      any other; only the account and the amount are tested for emptiness. */
  lemma TileZeroIsAChoice(account: string, amount: string)
    ensures ReadyToBet(account, Some(0), amount) <==> account != "" && amount != ""
    ensures !ReadyToBet(account, None, amount)
  {
  }

  class Page {
    /** The connected wallet address, `''` when none. */
    var account: string
    /** `localStorage.getItem('walletAddress')`, `None` when absent. */
    var storedAddress: Option<string>
    var current: BlockInfo
    var historical: seq<BlockInfo>
    /** The tile whose dialog is open or was last opened. */
    var selectedTag: Option<nat>
    var betAmount: string
    var dialogOpen: bool

    /** A selected tag is always one of the sixteen tiles. */
    ghost predicate Valid()
      reads this
    {
      selectedTag.Some? ==> selectedTag.value < 16
    }

    function Held(): Blocks
      reads this
    {
      Blocks(current, historical)
    }

    /** The initial state of every `useState`; `saved` is what local
        storage holds from an earlier visit. */
    constructor (saved: Option<string>)
      ensures Valid()
      ensures account == "" && storedAddress == saved
      ensures current == BlockInfo(Some(0), Some(""), None, None, None, None, None, None, None, None, None)
      ensures historical == [] && selectedTag == None && betAmount == "" && !dialogOpen
    {
      account := "";
      storedAddress := saved;
      current := BlockInfo(Some(0), Some(""), None, None, None, None, None, None, None, None, None);
      historical := [];
      selectedTag := None;
      betAmount := "";
      dialogOpen := false;
    }

    /** The mount effect: a saved, non-empty address becomes the account. */
    method RestoreAccount()
      requires Valid()
      modifies this`account
      ensures Valid()
      ensures old(storedAddress).Some? && old(storedAddress).value != "" ==> account == old(storedAddress).value
      ensures !(old(storedAddress).Some? && old(storedAddress).value != "") ==> account == old(account)
    {
      if storedAddress.Some? && storedAddress.value != "" {
        account := storedAddress.value;
      }
    }

    /** `fetchBlockchainData`: replaces the blocks only for an accepted
        response; nothing else changes. */
    method FetchBlockchainData(fetch: FetchResult)
      requires Valid()
      modifies this`current, this`historical
      ensures Valid()
      ensures Held() == Refresh(old(Held()), fetch)
    {
      match fetch {
        case Failed =>
        case Received(data) =>
          if data.Items? && |data.blocks| > 0 {
            var blocks := NormaliseAll(data.blocks);
            if TruthyHeight(blocks[0].height) {
              current := blocks[0];
              historical := blocks[1..];
            }
          }
      }
    }

    /** `connectWallet`: a granted account becomes the account and is saved;
        otherwise only a toast is shown. */
    method ConnectWallet(reply: WalletReply) returns (toast: Toast)
      requires Valid()
      modifies this`account, this`storedAddress
      ensures Valid()
      ensures reply.Granted? ==> account == reply.first && storedAddress == Some(reply.first) && toast == WalletConnected
      ensures reply.NoProvider? ==> account == old(account) && storedAddress == old(storedAddress) && toast == MetaMaskRequired
      ensures reply.Refused? ==> account == old(account) && storedAddress == old(storedAddress) && toast == WalletFailed
    {
      match reply {
        case NoProvider =>
          toast := MetaMaskRequired;
        case Refused =>
          toast := WalletFailed;
        case Granted(first) =>
          account := first;
          storedAddress := Some(first);
          toast := WalletConnected;
      }
    }

    /** The `accountsChanged` listener: the first account is taken and saved;
        an empty list disconnects and removes the saved address. */
    method AccountsChanged(accounts: seq<string>)
      requires Valid()
      modifies this`account, this`storedAddress
      ensures Valid()
      ensures |accounts| > 0 ==> account == accounts[0] && storedAddress == Some(accounts[0])
      ensures accounts == [] ==> account == "" && storedAddress == None
    {
      if |accounts| > 0 {
        account := accounts[0];
        storedAddress := Some(accounts[0]);
      } else {
        account := "";
        storedAddress := None;
      }
    }

    /** Clicking tile `i`: it becomes the selected tag and the dialog opens. */
    method SelectTile(i: nat)
      requires Valid() && i < 16
      modifies this`selectedTag, this`dialogOpen
      ensures Valid()
      ensures selectedTag == Some(i) && dialogOpen
    {
      selectedTag := Some(i);
      dialogOpen := true;
    }

    /** The amount input's `onChange`. */
    method EditAmount(text: string)
      requires Valid()
      modifies this`betAmount
      ensures Valid() && betAmount == text
    {
      betAmount := text;
    }

    /** Cancel or the close button: the dialog closes, the form is kept. */
    method CloseDialog()
      requires Valid()
      modifies this`dialogOpen
      ensures Valid() && !dialogOpen
    {
      dialogOpen := false;
    }

    /** `placeBet`. Without an account, a tag or an amount nothing happens.
        Without a provider only a warning is shown. An amount `parseUnits`
        rejects throws before the contract is called. Otherwise the contract
        is called with the tag and the amount; a confirmed transaction closes
        the dialog and clears the form. Every error shows its message (or
        'Failed to place bet') and keeps everything. */
    method PlaceBet(hasProvider: bool, tx: TxResult) returns (call: Option<BetCall>, toast: Option<Toast>)
      requires Valid()
      modifies this`dialogOpen, this`betAmount, this`selectedTag
      ensures Valid()
      ensures !old(ReadyToBet(account, selectedTag, betAmount)) ==>
        call == None && toast == None
        && dialogOpen == old(dialogOpen) && betAmount == old(betAmount) && selectedTag == old(selectedTag)
      ensures old(ReadyToBet(account, selectedTag, betAmount)) && !hasProvider ==>
        call == None && toast == Some(MetaMaskRequired)
        && dialogOpen == old(dialogOpen) && betAmount == old(betAmount) && selectedTag == old(selectedTag)
      ensures old(ReadyToBet(account, selectedTag, betAmount)) && hasProvider && tx.BadAmount? ==>
        call == None && toast == Some(BetFailed(FailureText(tx.reason)))
        && dialogOpen == old(dialogOpen) && betAmount == old(betAmount) && selectedTag == old(selectedTag)
      ensures old(ReadyToBet(account, selectedTag, betAmount)) && hasProvider && !tx.BadAmount? ==>
        call == Some(BetCall(old(selectedTag).value, old(betAmount))) && call.value.tag < 256
      ensures old(ReadyToBet(account, selectedTag, betAmount)) && hasProvider && tx.Confirmed? ==>
        toast == Some(BetPlaced) && !dialogOpen && betAmount == "" && selectedTag == None
      ensures old(ReadyToBet(account, selectedTag, betAmount)) && hasProvider && tx.Reverted? ==>
        toast == Some(BetFailed(FailureText(tx.message)))
        && dialogOpen == old(dialogOpen) && betAmount == old(betAmount) && selectedTag == old(selectedTag)
    {
      if !ReadyToBet(account, selectedTag, betAmount) {
        return None, None;
      }
      if !hasProvider {
        return None, Some(MetaMaskRequired);
      }
      if tx.BadAmount? {
        return None, Some(BetFailed(FailureText(tx.reason)));
      }
      call := Some(BetCall(selectedTag.value, betAmount));
      match tx {
        case Confirmed =>
          toast := Some(BetPlaced);
          dialogOpen := false;
          betAmount := "";
          selectedTag := None;
        case Reverted(message) =>
          toast := Some(BetFailed(FailureText(message)));
      }
    }
  }

  /** A page that has just loaded shows '...' for the height and
      'Loading...' for the hash, whatever local storage holds. */
  method InitialView(saved: Option<string>) returns (height: string, hash: string)
    ensures height == "..." && hash == "Loading..."
  {
    var page := new Page(saved);
    height := HeaderHeight(page.current.height);
    hash := FormatHash(page.current.hash);
  }

  /** The saved address survives a reload: after the wallet reports a new
      list of accounts, a fresh page restores the first of them, or no
      account at all when the list was empty. */
  method ReloadAfterAccountsChanged(accounts: seq<string>) returns (restored: string)
    ensures accounts == [] ==> restored == ""
    ensures accounts != [] ==> restored == accounts[0]
  {
    var page := new Page(None);
    page.AccountsChanged(accounts);
    var reloaded := new Page(page.storedAddress);
    reloaded.RestoreAccount();
    restored := reloaded.account;
  }

  /** Connecting a wallet and reloading the page shows the granted account;
      a refused or impossible connection leaves local storage as it was, so
      the reload restores whatever address had been saved before. */
  method ReloadAfterConnect(saved: Option<string>, reply: WalletReply) returns (restored: string)
    ensures reply.Granted? ==> restored == reply.first
    ensures !reply.Granted? ==> restored == (if saved.Some? && saved.value != "" then saved.value else "")
  {
    var page := new Page(saved);
    var toast := page.ConnectWallet(reply);
    var reloaded := new Page(page.storedAddress);
    reloaded.RestoreAccount();
    restored := reloaded.account;
  }

  /** Choosing tile `i`, typing an amount and pressing Buy with a connected
      wallet sends exactly that tile and amount; once the transaction is
      confirmed the form is cleared, so pressing Buy again sends nothing. */
  method BetOnce(account: string, i: nat, amount: string) returns (first: Option<BetCall>, second: Option<BetCall>)
    requires i < 16
    ensures account != "" && amount != "" ==> first == Some(BetCall(i, amount))
    ensures account == "" || amount == "" ==> first == None
    ensures second == None
  {
    var page := new Page(Some(account));
    page.RestoreAccount();
    page.SelectTile(i);
    page.EditAmount(amount);
    var toast;
    first, toast := page.PlaceBet(true, Confirmed);
    second, toast := page.PlaceBet(true, Confirmed);
  }
}
