# Bitcoin block betting page — Dafny model

The page shows the latest Bitcoin blocks from a block explorer and lets a
connected wallet bet on one of sixteen tags, `0`–`9` and `a`–`f`. This
project models two parts of it:

- **The block panel** (`BlockchainInfo`, in `blockchain_info.dfy`). It turns
  blocks into text:
  - the current height, with thousands separators inserted by a global
    regular-expression replace;
  - the abbreviated hash;
  - the `m:ss` text of `formatTime`, which the component defines but never calls;
  - the `'N/A'` placeholders of the details popover, and the miner fallback;
  - the sixteen-row recent-blocks table;
  - the histogram of the last hash characters of the recent blocks.
- **The page** (`IndexPage`, in `index_page.dfy`):
  - how an explorer response is normalised into blocks;
  - when a response replaces the blocks the page holds;
  - the wallet address: restored from local storage, set by connecting,
    updated by the wallet's `accountsChanged` event;
  - the betting grid, the bet dialog and the guard and reset of `placeBet`;
  - the tile labels and the abbreviated account in the header.

`JsText` (`js_text.dfy`) holds the JavaScript primitives both parts use:
- `Number.prototype.toString` on integers;
- `slice` with a positive and with a negative bound;
- `padStart(2, '0')`;
- an `Option` type for `undefined`/`NaN`.

`BlockchainInfoExamples` (`blockchain_examples.dfy`) works two instances
through:
- the height 123456 prints as `123,456`;
- three recent hashes ending in `a`, `a` and `b` give `a:2 b:1`.

The regular expression `/\B(?=(\d{3})+(?!\d))/g` is modelled literally:
- at each position, `\B` is checked: both neighbours are word characters, or neither is;
- the lookahead is checked: the run of digits from that position is a non-empty multiple of three long, and no digit follows it.

The model then proves that this equals cutting the decimal digits into groups of three from the right.

The page state is a class, `IndexPage.Page`, with one field per React state
variable. Each event handler is a method. A handler that awaits the network or the
wallet takes that outcome as a parameter:
- `FetchResult` for `fetch`/`json`;
- `WalletReply` for `eth_requestAccounts`;
- a provider flag and a `TxResult` for the contract call.

The details popover reads `historicalBlocks[0]`, not the current block. The
explorer lists the newest block first, so this is the second block of the
response: the block mined just before the current one. The model keeps that
choice.

## Model

| member | source | states |
|---|---|---|
| JsText.DecimalRoundTrip | components/BlockchainInfo.tsx:90 | reading back the digits `toString` writes for a non-negative integer gives the integer |
| JsText.DecimalShort | components/BlockchainInfo.tsx:90 | a number prints with at most three digits exactly when it is below 1000 |
| JsText.IntToString | components/BlockchainInfo.tsx:90 | non-negative integers print as their digits; negative ones as `-` and the digits of their magnitude |
| JsText.SliceHead | components/BlockchainInfo.tsx:95 | `slice(0, n)` is the prefix of length `min(n, length)` |
| JsText.SliceTail | components/BlockchainInfo.tsx:96 | `slice(-n)` is the suffix of length `min(n, length)` |
| JsText.PadStart2 | components/BlockchainInfo.tsx:111 | strings of two or more characters are kept; shorter ones are left-padded with `0` to length two, keeping the original as suffix |
| BlockchainInfo.Groups | components/BlockchainInfo.tsx:90 | the reference grouping: first group 1–3 digits, every later group exactly 3, all digits, concatenating to the input |
| BlockchainInfo.SeparatorsAreGroups | components/BlockchainInfo.tsx:90 | the position-by-position regex replace on a digit string equals its groups of three joined with `,` |
| BlockchainInfo.FormatBlockHeight | components/BlockchainInfo.tsx:87-91 | `...` for a `NaN`/absent height; a non-negative height prints as its decimal digits in groups of three from the right joined with commas; a negative one as `-` followed by the grouped digits of its magnitude |
| BlockchainInfo.SignKeepsSeparators | components/BlockchainInfo.tsx:90 | the regex replace puts no comma after a leading minus sign and groups the digits after it as without the sign |
| BlockchainInfo.SplitJoined | components/BlockchainInfo.tsx:152 | joining pieces that do not contain the separator and splitting the result at the separator gives the pieces back |
| BlockchainInfo.HeightSplit | components/BlockchainInfo.tsx:90 | splitting a formatted height at its commas gives the groups of three digits |
| BlockchainInfo.HeightWithoutCommas | components/BlockchainInfo.tsx:87-91 | deleting the commas from a formatted height gives its decimal digits, and those denote the height |
| BlockchainInfo.HeightHasNoOuterComma | components/BlockchainInfo.tsx:90 | a formatted height is non-empty and neither starts nor ends with a comma |
| BlockchainInfo.SmallHeightUnchanged | components/BlockchainInfo.tsx:87-91 | heights below 1000 print unchanged; 0 prints as `0` (the `height !== 0` branch) while the header shows `...` |
| BlockchainInfo.HeaderHeight | components/BlockchainInfo.tsx:201 | the header shows `...` for an absent, `NaN` or zero height, otherwise the formatted height |
| BlockchainInfoExamples.HeightExample | components/BlockchainInfo.tsx:90 | 123456 is shown as `123,456` |
| BlockchainInfo.FormatHash | components/BlockchainInfo.tsx:93-98 | `Loading...` for an absent or empty hash; any other hash shows its first `min(8, length)` characters, `...` and its last `min(8, length)` characters, so 19 characters for 16 or more, and a hash of at most 8 characters appears twice |
| BlockchainInfo.JsRemainder | components/BlockchainInfo.tsx:110 | JavaScript `%` by a positive divisor lies strictly between minus and plus the divisor, takes the sign of the dividend, and dividend = divisor × (quotient truncated toward zero) + remainder |
| BlockchainInfo.FormatTime | components/BlockchainInfo.tsx:107-112 | `0:00` for a non-number; for non-negative whole seconds the text is the minutes without leading zeros, `:`, exactly two digits below 60, and 60 × minutes + seconds is the input; negative seconds give a text starting with `-` |
| BlockchainInfo.ClockText | components/BlockchainInfo.tsx:109-111 | whole minutes, a colon and the remainder padded to two digits read back as that number of seconds, with no leading zero in the minutes |
| BlockchainInfo.ClockOfSeconds | components/BlockchainInfo.tsx:109-111 | the text built with `Math.floor` minutes and the `%` remainder is such a clock for every non-negative number of seconds |
| BlockchainInfo.FormatTimestamp | components/BlockchainInfo.tsx:100-105 | `N/A` exactly when the timestamp is absent, `NaN` or zero; otherwise a local time of that instant |
| BlockchainInfo.FormatSize | components/BlockchainInfo.tsx:114-117 | `N/A` exactly for a falsy size; otherwise megabytes, whose value times 1024 × 1024 is the byte count over exact reals |
| BlockchainInfo.SizeMonotone | components/BlockchainInfo.tsx:114-117 | a larger positive byte count never shows fewer megabytes |
| BlockchainInfo.FormatWeight | components/BlockchainInfo.tsx:119-122 | `N/A` exactly for a falsy weight; otherwise MWU, whose value times 1024 × 1024 is the weight over exact reals |
| BlockchainInfo.FormatFee | components/BlockchainInfo.tsx:124-127 | `N/A` exactly for a falsy fee; otherwise the fee itself in sat/byte |
| BlockchainInfo.FormatBtc | components/BlockchainInfo.tsx:129-132 | `N/A` exactly for a falsy amount; otherwise the amount itself in BTC |
| BlockchainInfo.MinerText | components/BlockchainInfo.tsx:268 | the miner when it is present and non-empty, `N/A` otherwise |
| BlockchainInfo.DetailsOf | components/BlockchainInfo.tsx:232-268 | with no history every popover row is a placeholder; otherwise each row is its formatter applied to that field of `historicalBlocks[0]` (a placeholder exactly when the field is falsy), the fee range is both ends formatted as fees when present and `N/A` when absent, the miner falls back to `N/A`, and health is shown as held |
| BlockchainInfo.HistoryRows | components/BlockchainInfo.tsx:354-366 | the table has `min(16, length)` rows, and row `i` shows the formatted height and hash of historical block `i` |
| BlockchainInfo.TrailingChars | components/BlockchainInfo.tsx:139-142 | one character per block whose hash is present and non-empty; each character occurs exactly as often as there are blocks whose hash ends in it |
| BlockchainInfo.TrailingCharsAreLastChars | components/BlockchainInfo.tsx:141-142 | every non-empty hash contributes its last character, and every character produced is the last character of some non-empty hash |
| BlockchainInfo.Tally | components/BlockchainInfo.tsx:143-146 | the counts object has exactly the characters seen as keys, each mapped to its number of occurrences |
| BlockchainInfo.FirstAppearance | components/BlockchainInfo.tsx:143-149 | the keys of the counts object in insertion order list each seen character exactly once |
| BlockchainInfo.Entries | components/BlockchainInfo.tsx:149 | `Object.entries` pairs each key, in order, with its count |
| BlockchainInfo.TallyEntriesCorrect | components/BlockchainInfo.tsx:139-149 | before sorting: distinct keys, exactly the characters seen, each count the number of occurrences (at least 1), counts summing to the number of characters |
| BlockchainInfo.InsertCorrect | components/BlockchainInfo.tsx:150 | inserting an entry with a new key into an ascending list keeps it ascending, adds exactly that entry and adds its count to the sum |
| BlockchainInfo.SortCorrect | components/BlockchainInfo.tsx:150 | sorting entries with distinct keys gives strictly ascending keys, is a permutation and keeps the sum of the counts |
| BlockchainInfo.SortKeepsMissing | components/BlockchainInfo.tsx:150 | sorting adds no key that was not there |
| BlockchainInfo.SortedSameEntries | components/BlockchainInfo.tsx:149-150 | the sorted entries are the unsorted ones: same keys, same counts |
| BlockchainInfo.FrequenciesCorrect | components/BlockchainInfo.tsx:135-153 | the histogram is in ascending character order, has one entry per trailing character of the first sixteen hashed blocks, whose count is the number of those blocks whose hash ends in that character, and the counts add up to the number of those blocks |
| BlockchainInfo.LastCharFrequency | components/BlockchainInfo.tsx:135-153 | the text is `N/A` exactly when the history is empty; a non-empty history without hashed blocks among the first sixteen shows the empty string; otherwise (when no trailing character is a space) splitting the text at single spaces gives exactly the sorted `c:n` entries |
| BlockchainInfo.EntryTextsWithoutSpace | components/BlockchainInfo.tsx:151-152 | an entry whose character is not a space renders without a space, so the joining spaces are the only ones |
| BlockchainInfo.SplitEntryTexts | components/BlockchainInfo.tsx:151-152 | entries whose characters are not spaces, joined by single spaces, split back into the same entry texts |
| BlockchainInfo.EntryTextsReadBack | components/BlockchainInfo.tsx:151 | each rendered `c:n` reads back as its character, a colon and its count in decimal |
| BlockchainInfo.OnlyFirstSixteen | components/BlockchainInfo.tsx:140 | blocks after the sixteenth never change the histogram text |
| BlockchainInfo.TrailingCharsAppend | components/BlockchainInfo.tsx:139-142 | the trailing characters of two runs of blocks are those of each run, in order |
| BlockchainInfo.UnhashedContributesNothing | components/BlockchainInfo.tsx:141-142 | a block with an absent or empty hash contributes no character |
| BlockchainInfo.NoHashNoChars | components/BlockchainInfo.tsx:142 | blocks none of which has a hash give no characters |
| BlockchainInfo.FrequencyPlaceholders | components/BlockchainInfo.tsx:136-152 | an empty history shows `N/A`; a non-empty one whose first sixteen hashes are all empty shows the empty string |
| BlockchainInfoExamples.FrequencyExample | components/BlockchainInfo.tsx:135-153 | hashes ending in `a`, `a`, `b` give `a:2 b:1` |
| IndexPage.Divide | pages/index.tsx:106-108 | dividing `NaN` gives `NaN`; otherwise, over exact reals, the quotient times the divisor is the dividend |
| IndexPage.Normalise | pages/index.tsx:98-110 | height is the record's id; hash, size, weight and miner are copied; health 99.88 and fee range 4–178 are fixed; timestamp is milliseconds / 1000, median fee is per-kB / 1000, total fee and reward are satoshis / 10^8, each `NaN` exactly when its input is; the divisions are exact |
| IndexPage.NormaliseAll | pages/index.tsx:98 | one block per record, in order |
| IndexPage.Refresh | pages/index.tsx:97-120 | an accepted response makes its first block current and the rest, in order, the history; every other outcome leaves the blocks unchanged |
| IndexPage.RejectedResponses | pages/index.tsx:97-126 | a failed request, missing, non-array or empty data, and a falsy first height all keep the blocks |
| IndexPage.HistoryLength | pages/index.tsx:93-117 | the history is one shorter than the response, so at most 15 blocks for `limit=16`, and it keeps the order of the hashes |
| IndexPage.DetailsShowPlaceholderFeeRange | pages/index.tsx:105 | after an accepted response with a history, the popover's fee range is 4 – 178 sat/byte |
| IndexPage.TagLabel | pages/index.tsx:304 | tile `i` is labelled with the one character `0123456789abcdef`[i]: a digit for 0–9, `a`–`f` for 10–15 |
| IndexPage.TagLabelRoundTrip | pages/index.tsx:303-304 | a label read as a hexadecimal digit gives its tile index back, and the sixteen labels are distinct |
| IndexPage.AccountLabel | pages/index.tsx:271 | `Connect Wallet` without an account; any other account shows its first `min(6, length)` characters, `...` and its last `min(4, length)` characters (13 characters for addresses of 10 or more) |
| IndexPage.TileZeroIsAChoice | pages/index.tsx:187 | the bet guard accepts tile 0 (it tests the tag with `=== null`), and rejects a missing tag, account or amount |
| IndexPage.Page.constructor | pages/index.tsx:71-79 | the initial state: no account, height 0 with an empty hash, no history, no tag, empty amount, dialog closed |
| IndexPage.Page.RestoreAccount | pages/index.tsx:83-88 | a saved non-empty address becomes the account; otherwise the account is kept |
| IndexPage.Page.FetchBlockchainData | pages/index.tsx:90-127 | the held blocks become exactly `Refresh` of the old blocks and the outcome; no other field changes |
| IndexPage.Page.ConnectWallet | pages/index.tsx:134-168 | a granted account becomes the account and is saved, with a success toast; without a provider or on error, account and storage are kept and the matching toast is shown |
| IndexPage.Page.AccountsChanged | pages/index.tsx:171-184 | a non-empty list makes its first account current and saved; an empty list clears the account and removes the saved address |
| IndexPage.Page.SelectTile | pages/index.tsx:321-324 | the clicked tile becomes the selected tag and the dialog opens |
| IndexPage.Page.EditAmount | pages/index.tsx:391 | the amount becomes the typed text |
| IndexPage.Page.CloseDialog | pages/index.tsx:426 | the dialog closes; tag and amount are kept |
| IndexPage.Page.PlaceBet | pages/index.tsx:186-235 | without account, tag or amount nothing happens (tile 0 counts as a tag); without a provider only a warning is shown; an amount `parseUnits` rejects shows the error and no contract call is made; otherwise the contract gets the tag, as one byte, and the amount as typed; on confirmation the dialog closes and tag and amount are cleared; on failure the error message, or `Failed to place bet`, is shown and the form is kept |
| IndexPage.InitialView | pages/index.tsx:71-75 | a freshly loaded page shows `...` as height and `Loading...` as hash |
| IndexPage.ReloadAfterAccountsChanged | pages/index.tsx:171-184 | after an `accountsChanged` event, a reloaded page restores the first account, or none for an empty list |
| IndexPage.ReloadAfterConnect | pages/index.tsx:134-168 | after a granted connection a reloaded page shows the granted account; after a refused or impossible one local storage is untouched, so the reload restores the address saved before, if any |
| IndexPage.BetOnce | pages/index.tsx:186-235 | select, type and Buy sends exactly that tile and amount when an account and an amount are present; after confirmation a second Buy sends nothing |

## Left out

- The explorer request, `response.json()` and the console logging are not modelled. Their outcome is the `FetchResult` parameter.
- `Number(...)` coercion of the explorer's strings and the parsing of `block.time` by `new Date` are not modelled. `RawBlock` holds the coerced values, with `None` for `NaN`.
- Floating-point rendering is not modelled: `toFixed(2)`, `toFixed(3)`, `toLocaleString`, and the template printing of fees. The formatters return the number and its unit (`Cell`) instead of digits.
- The "minutes ago" part of the timestamp row is not modelled, because it reads the clock (`Date.now`).
- Numbers are exact. `/ 1000`, `/ 1e8` and `/ (1024*1024)` are real division without rounding, and `Infinity` and `-0` are not modelled. The facts "quotient × divisor = dividend" of Divide, Normalise, FormatSize and FormatWeight hold of the model, not of IEEE doubles, where for example 3 / 1e8 × 1e8 is 2.9999999999999996.
- Characters are Unicode scalar values, while `slice` counts UTF-16 code units. The two agree on the hexadecimal hashes and addresses the page shows.
- The digits of the health row (`toFixed(2)`) are not modelled. Only the value shown is.
- BlockchainInfo.FormatBlockHeight: heights are whole numbers. Fractional heights and the exponent notation `toString` uses from 10^21 on are not modelled.
- BlockchainInfo.FormatTime: seconds are whole numbers or absent, and absent gives `0:00`. A `NaN` argument passes the `typeof` test and prints `NaN:NaN`; that case and fractional seconds are not modelled.
- BlockchainInfo.FirstAppearance: the keys are in insertion order. `Object.entries` lists the digit keys `'0'`–`'9'` first, in ascending order, then the other keys in insertion order. The two orders differ only before sorting; the sort that follows gives the same text, since the keys are distinct.
- BlockchainInfo.SortByChar: `localeCompare` is modelled as code-point order. The two agree on the digits and lowercase letters of a hexadecimal hash, but not on every character.
- A wallet that grants an empty account list is not modelled. The account would become `undefined`, `localStorage.setItem` would store the text `"undefined"`, and the restore on the next load would bring that text back as the account.
- The ethers provider, signer and contract object are not modelled, nor are `hexlify` and `parseUnits`. The outcome of the bet is the `TxResult` parameter. Whether `parseUnits` accepts the typed amount is part of that parameter (`BadAmount`); the grammar `parseUnits` accepts is not modelled.
- Toast titles, status colours and durations are not modelled. Only which message is shown is.
- `typeof window === 'undefined'`, which happens during server rendering, is folded into "no provider".
- React scheduling is not modelled: effect ordering, re-renders, and handlers overlapping while an await is pending. Each handler runs to completion on the state it starts from.
- The clipboard copy, tooltips, animations, theme and layout are not modelled.
- `components/ErrorBoundary.tsx` and `pages/_app.tsx` are not part of this model.
