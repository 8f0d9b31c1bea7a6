/** The block panel of the dashboard: how the current block's height and
    hash, the details of the latest historical block and the recent-blocks
    table are turned into text. Every helper here is total: an absent or
    zero value gives a placeholder, never a failure. */
module BlockchainInfo {
  import opened JsText

  /** One block as the page holds it. `None` in a numeric field stands for
      `undefined` or `NaN`; in a text field, for `undefined`. */
  datatype BlockInfo = BlockInfo(
    height: Option<int>,
    hash: Option<string>,
    timestamp: Option<real>,
    size: Option<real>,
    weight: Option<real>,
    health: Option<real>,
    feeRange: Option<(real, real)>,
    medianFee: Option<real>,
    totalFee: Option<real>,
    reward: Option<real>,
    miner: Option<string>)

  // ---------------------------------------------------------------------
  // Block height: `toString()` followed by the global replace of
  // /\B(?=(\d{3})+(?!\d))/ with ",".
  // ---------------------------------------------------------------------

  /** `\w` of a regular expression. */
  predicate IsWordChar(c: char)
  {
    'a' <= c <= 'z' || 'A' <= c <= 'Z' || IsDigit(c) || c == '_'
  }

  predicate WordAt(s: string, i: int)
  {
    0 <= i < |s| && IsWordChar(s[i])
  }

  /** `\B` at position `p`: both sides of `p` are word characters, or neither is. */
  predicate NoBoundary(s: string, p: int)
  {
    WordAt(s, p - 1) == WordAt(s, p)
  }

  /** The number of consecutive digits starting at position `p`. */
  function DigitRun(s: string, p: nat): (n: nat)
    requires p <= |s|
    ensures p + n <= |s|
    decreases |s| - p
  {
    if p < |s| && IsDigit(s[p]) then 1 + DigitRun(s, p + 1) else 0
  }

  /** `(?=(\d{3})+(?!\d))` at position `p`: some number of whole groups of
      three digits reaches a position that is not followed by a digit, that
      is, the run of digits from `p` is non-empty and a multiple of three. */
  predicate GroupsAhead(s: string, p: nat)
    requires p <= |s|
  {
    var n := DigitRun(s, p); n > 0 && n % 3 == 0
  }

  /** Whether the empty pattern matches at position `p`. */
  predicate SeparatorAt(s: string, p: nat)
    requires p <= |s|
  {
    NoBoundary(s, p) && GroupsAhead(s, p)
  }

  /** The global replace from position `p` on: every position where the
      empty pattern matches receives a comma, in front of the character that
      was there. */
  function ReplaceFrom(s: string, p: nat): string
    requires p <= |s|
    decreases |s| - p
  {
    (if SeparatorAt(s, p) then "," else "")
    + (if p == |s| then "" else [s[p]] + ReplaceFrom(s, p + 1))
  }

  function InsertSeparators(s: string): string
  {
    ReplaceFrom(s, 0)
  }

  /** `formatBlockHeight`: `'...'` for a height that is falsy but not zero
      (`undefined`, `NaN`), otherwise the height with thousands separators. */
  function FormatBlockHeight(height: Option<int>): (r: string)
    ensures height.None? ==> r == "..."
    ensures height.Some? && height.value >= 0 ==> r == JoinWith(Groups(Decimal(height.value)), ',')
    ensures height.Some? && height.value < 0 ==> r == "-" + JoinWith(Groups(Decimal(-height.value)), ',')
  {
    if height.None? then "..."
    else
      var v := height.value;
      var d := Decimal(if v < 0 then -v else v);
      SeparatorsAreGroups(d);
      SignKeepsSeparators(d);
      InsertSeparators(IntToString(v))
  }

  /** The header shows `'...'` for every falsy height, zero included. */
  function HeaderHeight(height: Option<int>): (r: string)
    ensures height.None? || height.value == 0 ==> r == "..."
    ensures height.Some? && height.value != 0 ==> r == FormatBlockHeight(height)
  {
    if height.None? || height.value == 0 then "..." else FormatBlockHeight(height)
  }

  /** Concatenation of a list of strings. */
  function Concat(gs: seq<string>): string
  {
    if gs == [] then "" else Concat(gs[..|gs| - 1]) + gs[|gs| - 1]
  }

  /** `Array.prototype.join` with a one-character separator. */
  function JoinWith(gs: seq<string>, sep: char): string
  {
    if gs == [] then ""
    else if |gs| == 1 then gs[0]
    else JoinWith(gs[..|gs| - 1], sep) + [sep] + gs[|gs| - 1]
  }

  /** A digit string cut into groups of three from the right: the reference
      description of thousands separators. */
  function Groups(d: string): (gs: seq<string>)
    requires |d| > 0 && AllDigits(d)
    ensures |gs| > 0 && 1 <= |gs[0]| <= 3
    ensures forall i :: 1 <= i < |gs| ==> |gs[i]| == 3
    ensures forall i :: 0 <= i < |gs| ==> AllDigits(gs[i])
    ensures Concat(gs) == d
    decreases |d|
  {
    if |d| <= 3 then [d]
    else
      var gs := Groups(d[..|d| - 3]) + [d[|d| - 3..]];
      assert gs[..|gs| - 1] == Groups(d[..|d| - 3]);
      assert d == d[..|d| - 3] + d[|d| - 3..];
      gs
  }

  function StripCommas(s: string): string
  {
    if s == [] then "" else (if s[0] == ',' then "" else [s[0]]) + StripCommas(s[1..])
  }

  lemma {:induction false} DigitRunToEnd(d: string, p: nat)
    requires AllDigits(d) && p <= |d|
    ensures DigitRun(d, p) == |d| - p
    decreases |d| - p
  {
    if p < |d| {
      DigitRunToEnd(d, p + 1);
    }
  }

  /** In a string of digits the pattern matches exactly at the inner
      positions that have a multiple of three digits to their right. */
  lemma SeparatorInDigits(d: string, p: nat)
    requires AllDigits(d) && p <= |d|
    ensures SeparatorAt(d, p) <==> 0 < p < |d| && (|d| - p) % 3 == 0
  {
    DigitRunToEnd(d, p);
  }

  lemma {:induction false} ShortUnchanged(d: string, p: nat)
    requires AllDigits(d) && |d| <= 3 && p <= |d|
    ensures ReplaceFrom(d, p) == d[p..]
    decreases |d| - p
  {
    SeparatorInDigits(d, p);
    if p < |d| {
      ShortUnchanged(d, p + 1);
    }
  }

  /** No comma goes in front of the last two digits of a digit string. */
  lemma NoSeparatorNearEnd(d: string, p: nat)
    requires AllDigits(d) && |d| - 2 <= p < |d|
    ensures ReplaceFrom(d, p) == [d[p]] + ReplaceFrom(d, p + 1)
  {
    SeparatorInDigits(d, p);
  }

  /** The last three digits of a longer digit string are preceded by a comma. */
  lemma LastGroup(d: string)
    requires AllDigits(d) && |d| > 3
    ensures ReplaceFrom(d, |d| - 3) == "," + d[|d| - 3..]
  {
    var k := |d| - 3;
    assert ReplaceFrom(d, k + 3) == "" by {
      SeparatorInDigits(d, k + 3);
    }
    NoSeparatorNearEnd(d, k + 2);
    NoSeparatorNearEnd(d, k + 1);
    assert SeparatorAt(d, k) by {
      SeparatorInDigits(d, k);
    }
    assert ReplaceFrom(d, k) == "," + ([d[k]] + ([d[k + 1]] + ([d[k + 2]] + "")));
    assert d[k..] == [d[k], d[k + 1], d[k + 2]];
  }

  lemma {:induction false} SplitLastGroup(d: string, p: nat)
    requires AllDigits(d) && |d| > 3 && p <= |d| - 3
    ensures ReplaceFrom(d, p) == ReplaceFrom(d[..|d| - 3], p) + "," + d[|d| - 3..]
    decreases |d| - p
  {
    var k := |d| - 3;
    var a := d[..k];
    SeparatorInDigits(a, p);
    if p == k {
      LastGroup(d);
      assert ReplaceFrom(a, k) == "";
    } else {
      SeparatorInDigits(d, p);
      assert SeparatorAt(d, p) == SeparatorAt(a, p);
      SplitLastGroup(d, p + 1);
      assert a[p] == d[p];
    }
  }

  /** The regular-expression replace on a digit string is exactly the
      reference grouping: groups of three from the right, joined by commas. */
  lemma {:induction false} SeparatorsAreGroups(d: string)
    requires AllDigits(d) && |d| > 0
    ensures InsertSeparators(d) == JoinWith(Groups(d), ',')
    decreases |d|
  {
    if |d| <= 3 {
      ShortUnchanged(d, 0);
    } else {
      var a := d[..|d| - 3];
      SplitLastGroup(d, 0);
      SeparatorsAreGroups(a);
      var gs := Groups(d);
      assert gs[..|gs| - 1] == Groups(a);
    }
  }

  lemma {:induction false} DigitRunAfterSign(d: string, p: nat)
    requires p <= |d|
    ensures DigitRun("-" + d, p + 1) == DigitRun(d, p)
    decreases |d| - p
  {
    if p < |d| {
      DigitRunAfterSign(d, p + 1);
      assert ("-" + d)[p + 1] == d[p];
    }
  }

  lemma {:induction false} ReplaceAfterSign(d: string, p: nat)
    requires p <= |d|
    ensures ReplaceFrom("-" + d, p + 1) == ReplaceFrom(d, p)
    decreases |d| - p
  {
    var s := "-" + d;
    assert WordAt(s, p) == WordAt(d, p - 1) by {
      if p >= 1 { assert s[p] == d[p - 1]; }
    }
    assert WordAt(s, p + 1) == WordAt(d, p) by {
      if p < |d| { assert s[p + 1] == d[p]; }
    }
    DigitRunAfterSign(d, p);
    if p < |d| {
      ReplaceAfterSign(d, p + 1);
      assert s[p + 1] == d[p];
    }
  }

  lemma {:induction false} StripAppend(a: string, b: string)
    ensures StripCommas(a + b) == StripCommas(a) + StripCommas(b)
    decreases |a|
  {
    if a != [] {
      assert (a + b)[0] == a[0];
      assert (a + b)[1..] == a[1..] + b;
      StripAppend(a[1..], b);
    } else {
      assert a + b == b;
    }
  }

  lemma {:induction false} StripDigits(d: string)
    requires AllDigits(d)
    ensures StripCommas(d) == d
    decreases |d|
  {
    if d != [] {
      StripDigits(d[1..]);
    }
  }

  lemma {:induction false} StripJoined(gs: seq<string>)
    requires forall i :: 0 <= i < |gs| ==> AllDigits(gs[i])
    ensures StripCommas(JoinWith(gs, ',')) == Concat(gs)
    decreases |gs|
  {
    if |gs| == 1 {
      StripDigits(gs[0]);
      assert Concat(gs) == Concat([]) + gs[0];
    } else if |gs| > 1 {
      var init, last := gs[..|gs| - 1], gs[|gs| - 1];
      StripJoined(init);
      StripAppend(JoinWith(init, ',') + ",", last);
      StripAppend(JoinWith(init, ','), ",");
      StripDigits(last);
    }
  }

  lemma {:induction false} JoinStartsWithFirst(gs: seq<string>, sep: char)
    requires |gs| > 0
    ensures |JoinWith(gs, sep)| >= |gs[0]| && JoinWith(gs, sep)[..|gs[0]|] == gs[0]
    decreases |gs|
  {
    if |gs| > 1 {
      var init := gs[..|gs| - 1];
      JoinStartsWithFirst(init, sep);
      assert init[0] == gs[0];
    }
  }

  /** Cutting a string at every occurrence of a separator, the inverse of
      `JoinWith` (as `String.prototype.split` is of `join`). */
  function Split(s: string, sep: char): (parts: seq<string>)
    ensures |parts| > 0
    decreases |s|
  {
    if s == [] then [""]
    else
      var init := Split(s[..|s| - 1], sep);
      var c := s[|s| - 1];
      if c == sep then init + [""] else init[..|init| - 1] + [init[|init| - 1] + [c]]
  }

  lemma {:induction false} SplitWithoutSeparator(b: string, sep: char)
    requires sep !in b
    ensures Split(b, sep) == [b]
    decreases |b|
  {
    if b != [] {
      SplitWithoutSeparator(b[..|b| - 1], sep);
      assert b[..|b| - 1] + [b[|b| - 1]] == b;
    }
  }

  lemma {:induction false} SplitAfterSeparator(a: string, b: string, sep: char)
    requires sep !in b
    ensures Split(a + [sep] + b, sep) == Split(a, sep) + [b]
    decreases |b|
  {
    var s := a + [sep] + b;
    if b == [] {
      assert s[..|s| - 1] == a;
    } else {
      var b' := b[..|b| - 1];
      assert s[..|s| - 1] == a + [sep] + b';
      SplitAfterSeparator(a, b', sep);
      assert b' + [b[|b| - 1]] == b;
    }
  }

  /** Joining pieces that do not contain the separator and splitting the
      result again gives back the pieces. */
  lemma {:induction false} SplitJoined(gs: seq<string>, sep: char)
    requires |gs| > 0 && forall i :: 0 <= i < |gs| ==> sep !in gs[i]
    ensures Split(JoinWith(gs, sep), sep) == gs
    decreases |gs|
  {
    if |gs| == 1 {
      SplitWithoutSeparator(gs[0], sep);
    } else {
      var init := gs[..|gs| - 1];
      SplitJoined(init, sep);
      SplitAfterSeparator(JoinWith(init, sep), gs[|gs| - 1], sep);
      assert init + [gs[|gs| - 1]] == gs;
    }
  }

  /** Deleting the commas from a formatted height gives back its decimal
      representation, and so the height itself. */
  lemma HeightWithoutCommas(n: nat)
    ensures StripCommas(FormatBlockHeight(Some(n))) == Decimal(n)
    ensures DecimalValue(StripCommas(FormatBlockHeight(Some(n)))) == n
  {
    var gs := Groups(Decimal(n));
    SeparatorsAreGroups(Decimal(n));
    StripJoined(gs);
    DecimalRoundTrip(n);
  }

  /** Splitting a formatted height at its commas gives its groups of digits. */
  lemma HeightSplit(n: nat)
    ensures Split(FormatBlockHeight(Some(n)), ',') == Groups(Decimal(n))
  {
    var gs := Groups(Decimal(n));
    forall i | 0 <= i < |gs| ensures ',' !in gs[i] {
      assert AllDigits(gs[i]);
    }
    SplitJoined(gs, ',');
  }

  /** A formatted height neither starts nor ends with a comma. */
  lemma HeightHasNoOuterComma(n: nat)
    ensures var r := FormatBlockHeight(Some(n)); |r| > 0 && r[0] != ',' && r[|r| - 1] != ','
  {
    var gs := Groups(Decimal(n));
    SeparatorsAreGroups(Decimal(n));
    JoinStartsWithFirst(gs, ',');
    var r := JoinWith(gs, ',');
    assert r[0] == gs[0][0];
    var last := gs[|gs| - 1];
    assert IsDigit(last[|last| - 1]);
    if |gs| > 1 {
      assert r == JoinWith(gs[..|gs| - 1], ',') + [','] + last;
    }
    assert r[|r| - 1] == last[|last| - 1];
  }

  /** Heights below 1000 are printed unchanged; zero prints as "0" and the
      header nonetheless shows '...' for it. */
  lemma SmallHeightUnchanged(n: nat)
    requires n < 1000
    ensures FormatBlockHeight(Some(n)) == Decimal(n)
    ensures n == 0 ==> FormatBlockHeight(Some(n)) == "0" && HeaderHeight(Some(n)) == "..."
  {
    DecimalShort(n);
    ShortUnchanged(Decimal(n), 0);
  }

  /** A minus sign in front of a digit string gets no comma after it: `\B`
      holds before the sign, but no digit run starts there, and from the
      first digit on the replace proceeds as without the sign. */
  lemma SignKeepsSeparators(d: string)
    requires AllDigits(d)
    ensures InsertSeparators("-" + d) == "-" + InsertSeparators(d)
  {
    var s := "-" + d;
    assert !SeparatorAt(s, 0) by {
      assert !IsDigit(s[0]);
    }
    assert ReplaceFrom(s, 0) == [s[0]] + ReplaceFrom(s, 1);
    ReplaceAfterSign(d, 0);
  }

  // ---------------------------------------------------------------------
  // Hash and clock formatting.
  // ---------------------------------------------------------------------

  /** `formatHash`: the first eight and the last eight characters around an
      ellipsis; `'Loading...'` for an absent or empty hash. */
  function FormatHash(hash: Option<string>): (r: string)
    ensures hash.None? || hash.value == "" ==> r == "Loading..."
    ensures hash.Some? && hash.value != "" ==>
      var h := hash.value; var k := if |h| < 8 then |h| else 8;
      r == h[..k] + "..." + h[|h| - k..]
    ensures hash.Some? && |hash.value| >= 16 ==>
      |r| == 19 && r[..8] == hash.value[..8] && r[8..11] == "..."
      && r[11..] == hash.value[|hash.value| - 8..]
    ensures hash.Some? && 0 < |hash.value| <= 8 ==> r == hash.value + "..." + hash.value
  {
    if hash.None? || hash.value == "" then "Loading..."
    else SliceHead(hash.value, 8) + "..." + SliceTail(hash.value, 8)
  }

  /** JavaScript's `%`: the remainder takes the sign of the dividend. */
  function JsRemainder(x: int, m: nat): (r: int)
    requires m > 0
    ensures -(m as int) < r < m
    ensures x >= 0 ==> 0 <= r && x == m * (x / m) + r
    ensures x < 0 ==> r <= 0 && x == r - m * ((-x) / m)
  {
    if x >= 0 then x % m else -((-x) % m)
  }

  /** `m:ss`: minutes as digits without a leading zero (a lone `0` aside),
      a colon and exactly two digits of seconds below 60, together denoting
      `s` seconds. */
  predicate IsClock(r: string, s: nat)
  {
    var k := |r| - 3;
    && k >= 1 && r[k] == ':'
    && (k > 1 ==> r[0] != '0')
    && AllDigits(r[..k]) && AllDigits(r[k + 1..])
    && DecimalValue(r[k + 1..]) < 60
    && 60 * DecimalValue(r[..k]) + DecimalValue(r[k + 1..]) == s
  }

  /** Seconds below 60 padded to two characters are two digits denoting them. */
  lemma PaddedSeconds(ss: nat)
    requires ss < 60
    ensures var pad := PadStart2(Decimal(ss)); |pad| == 2 && AllDigits(pad) && DecimalValue(pad) == ss
  {
    var pad := PadStart2(Decimal(ss));
    if ss < 10 {
      assert pad == "0" + Decimal(ss);
      assert pad[..1] == "0";
      assert DecimalValue(pad) == 10 * DecimalValue("0") + DigitValue(pad[1]);
    } else {
      assert |Decimal(ss)| == |Decimal(ss / 10)| + 1;
      DecimalRoundTrip(ss);
    }
  }

  /** Whole minutes, a colon and the seconds padded to two digits read as a
      clock. */
  lemma ClockText(s: nat)
    ensures IsClock(Decimal(s / 60) + ":" + PadStart2(Decimal(s % 60)), s)
  {
    var mins := Decimal(s / 60);
    var pad := PadStart2(Decimal(s % 60));
    DecimalRoundTrip(s / 60);
    PaddedSeconds(s % 60);
    var r := mins + ":" + pad;
    assert r[..|r| - 3] == mins;
    assert r[|r| - 2..] == pad;
    assert r[0] == mins[0];
  }

  /** What `formatTime` builds from a number of seconds is a clock whenever
      that number is non-negative. */
  lemma ClockOfSeconds(s: int)
    ensures s >= 0 ==> IsClock(IntToString(s / 60) + ":" + PadStart2(IntToString(JsRemainder(s, 60))), s)
  {
    if s >= 0 {
      ClockText(s);
      assert JsRemainder(s, 60) == s % 60;
    }
  }

  /** `formatTime`: `'0:00'` for a non-number; for a non-negative number of
      seconds `m:ss` with `Math.floor` minutes; a negative number gives
      negative minutes, so the text starts with a minus sign. */
  function FormatTime(seconds: Option<int>): (r: string)
    ensures seconds.None? ==> r == "0:00"
    ensures seconds.Some? && seconds.value >= 0 ==> IsClock(r, seconds.value)
    ensures seconds.Some? && seconds.value < 0 ==> |r| > 0 && r[0] == '-'
  {
    if seconds.None? then "0:00"
    else
      var s := seconds.value;
      ClockOfSeconds(s);
      IntToString(s / 60) + ":" + PadStart2(IntToString(JsRemainder(s, 60)))
  }

  // ---------------------------------------------------------------------
  // Placeholders of the details popover.
  // ---------------------------------------------------------------------

  /** What a numeric field of the details renders as: `'N/A'`, or a number
      in a unit. The digits of the number (`toFixed`, locale dates) are
      floating-point rendering and are not part of this model. */
  datatype Unit = LocalTime | Megabytes | MegaWeightUnits | SatoshisPerByte | Bitcoin
  datatype Cell = NotAvailable | Figure(amount: real, unit: Unit)

  /** `!x` for a number: `undefined`, `NaN` or zero. */
  predicate Falsy(x: Option<real>)
  {
    x.None? || x.value == 0.0
  }

  /** `formatTimestamp`: a date for a truthy epoch-seconds value. */
  function FormatTimestamp(timestamp: Option<real>): (c: Cell)
    ensures c.NotAvailable? <==> Falsy(timestamp)
    ensures c.Figure? ==> c.unit == LocalTime && c.amount == timestamp.value
  {
    if Falsy(timestamp) then NotAvailable else Figure(timestamp.value, LocalTime)
  }

  /** `formatSize`: bytes shown in units of 1024 * 1024 bytes. */
  function FormatSize(bytes: Option<real>): (c: Cell)
    ensures c.NotAvailable? <==> Falsy(bytes)
    ensures c.Figure? ==> c.unit == Megabytes && c.amount * 1048576.0 == bytes.value
  {
    if Falsy(bytes) then NotAvailable else Figure(bytes.value / (1024.0 * 1024.0), Megabytes)
  }

  /** `formatWeight`: weight units shown in units of 1024 * 1024. */
  function FormatWeight(weight: Option<real>): (c: Cell)
    ensures c.NotAvailable? <==> Falsy(weight)
    ensures c.Figure? ==> c.unit == MegaWeightUnits && c.amount * 1048576.0 == weight.value
  {
    if Falsy(weight) then NotAvailable else Figure(weight.value / (1024.0 * 1024.0), MegaWeightUnits)
  }

  /** `formatFee`: a fee rate shown as it is, in satoshis per byte. */
  function FormatFee(fee: Option<real>): (c: Cell)
    ensures c.NotAvailable? <==> Falsy(fee)
    ensures c.Figure? ==> c.unit == SatoshisPerByte && c.amount == fee.value
  {
    if Falsy(fee) then NotAvailable else Figure(fee.value, SatoshisPerByte)
  }

  /** `formatBTC`: an amount shown in bitcoin. */
  function FormatBtc(btc: Option<real>): (c: Cell)
    ensures c.NotAvailable? <==> Falsy(btc)
    ensures c.Figure? ==> c.unit == Bitcoin && c.amount == btc.value
  {
    if Falsy(btc) then NotAvailable else Figure(btc.value, Bitcoin)
  }

  /** Larger byte counts never show a smaller number of megabytes. */
  lemma SizeMonotone(a: real, b: real)
    requires 0.0 < a <= b
    ensures FormatSize(Some(a)).amount <= FormatSize(Some(b)).amount
  {
  }

  /** The miner, or `'N/A'` when it is absent or empty. */
  function MinerText(miner: Option<string>): (r: string)
    ensures miner.None? || miner.value == "" ==> r == "N/A"
    ensures miner.Some? && miner.value != "" ==> r == miner.value
  {
    if miner.None? || miner.value == "" then "N/A" else miner.value
  }

  datatype FeeRangeCell = NoRange | Range(low: Cell, high: Cell)

  /** The rows of the details popover. `health` is the number before the
      `%` sign; `None` leaves the sign alone on its row. */
  datatype Details = Details(
    timestamp: Cell, size: Cell, weight: Cell, health: Option<real>, feeRange: FeeRangeCell,
    medianFee: Cell, totalFee: Cell, reward: Cell, miner: string)

  /** The popover reads `historicalBlocks[0]?.field` for every row: with an
      empty history every row is a placeholder, otherwise each row is a
      placeholder exactly when its field of the first historical block is
      absent or zero. */
  function DetailsOf(history: seq<BlockInfo>): (d: Details)
    ensures history == [] ==>
      d == Details(NotAvailable, NotAvailable, NotAvailable, None, NoRange,
                   NotAvailable, NotAvailable, NotAvailable, "N/A")
    ensures history != [] ==>
      var b := history[0];
      && (d.timestamp.NotAvailable? <==> Falsy(b.timestamp))
      && (d.size.NotAvailable? <==> Falsy(b.size))
      && (d.weight.NotAvailable? <==> Falsy(b.weight))
      && (d.medianFee.NotAvailable? <==> Falsy(b.medianFee))
      && (d.totalFee.NotAvailable? <==> Falsy(b.totalFee))
      && (d.reward.NotAvailable? <==> Falsy(b.reward))
      && d.timestamp == FormatTimestamp(b.timestamp)
      && d.size == FormatSize(b.size)
      && d.weight == FormatWeight(b.weight)
      && d.health == b.health
      && d.medianFee == FormatFee(b.medianFee)
      && d.totalFee == FormatBtc(b.totalFee)
      && d.reward == FormatBtc(b.reward)
      && d.miner == MinerText(b.miner)
      && (d.feeRange.NoRange? <==> b.feeRange.None?)
      && (b.feeRange.Some? ==>
            d.feeRange == Range(FormatFee(Some(b.feeRange.value.0)), FormatFee(Some(b.feeRange.value.1))))
      && (d.miner == "N/A" <==> b.miner.None? || b.miner.value == "" || b.miner.value == "N/A")
  {
    if history == [] then
      Details(NotAvailable, NotAvailable, NotAvailable, None, NoRange,
              NotAvailable, NotAvailable, NotAvailable, "N/A")
    else
      var b := history[0];
      var range := if b.feeRange.None? then NoRange
                   else Range(FormatFee(Some(b.feeRange.value.0)), FormatFee(Some(b.feeRange.value.1)));
      Details(FormatTimestamp(b.timestamp), FormatSize(b.size), FormatWeight(b.weight), b.health, range,
              FormatFee(b.medianFee), FormatBtc(b.totalFee), FormatBtc(b.reward), MinerText(b.miner))
  }

  /** One row of the recent-blocks table. */
  datatype Row = Row(height: string, hash: string)

  /** The table shows the first sixteen historical blocks, in order, each
      with its formatted height and hash. */
  function HistoryRows(history: seq<BlockInfo>): (rows: seq<Row>)
    ensures |rows| <= 16
    ensures |rows| == if |history| < 16 then |history| else 16
    ensures forall i :: 0 <= i < |rows| ==>
      rows[i] == Row(FormatBlockHeight(history[i].height), FormatHash(history[i].hash))
  {
    var shown := SliceHead(history, 16);
    seq(|shown|, i requires 0 <= i < |shown| =>
      Row(FormatBlockHeight(shown[i].height), FormatHash(shown[i].hash)))
  }

  // ---------------------------------------------------------------------
  // Frequency of the trailing hash characters of the recent blocks.
  // ---------------------------------------------------------------------

  /** `block.hash?.slice(-1)` is truthy: the hash is present and not empty. */
  predicate HasHash(b: BlockInfo)
  {
    b.hash.Some? && b.hash.value != ""
  }

  /** The number of blocks with a non-empty hash. */
  function HashedCount(blocks: seq<BlockInfo>): nat
  {
    if blocks == [] then 0 else (if HasHash(blocks[0]) then 1 else 0) + HashedCount(blocks[1..])
  }

  /** `block.hash.slice(-1)` of a block with a non-empty hash. */
  function LastChar(b: BlockInfo): char
    requires HasHash(b)
  {
    b.hash.value[|b.hash.value| - 1]
  }

  /** The number of blocks whose hash is non-empty and ends in `c`. */
  function EndingIn(blocks: seq<BlockInfo>, c: char): nat
  {
    if blocks == [] then 0
    else (if HasHash(blocks[0]) && LastChar(blocks[0]) == c then 1 else 0) + EndingIn(blocks[1..], c)
  }

  /** `.map(block => block.hash?.slice(-1)).filter(char => char)`: the last
      character of every non-empty hash, in block order. Each character
      occurs as often as there are blocks whose hash ends in it. */
  function TrailingChars(blocks: seq<BlockInfo>): (cs: seq<char>)
    ensures |cs| == HashedCount(blocks)
    ensures forall c :: multiset(cs)[c] == EndingIn(blocks, c)
  {
    if blocks == [] then []
    else
      var b := blocks[0];
      (if HasHash(b) then [LastChar(b)] else []) + TrailingChars(blocks[1..])
  }

  /** The characters are exactly the last characters of the non-empty
      hashes: every such block contributes its last character, and every
      character comes from such a block. */
  lemma {:induction false} TrailingCharsAreLastChars(blocks: seq<BlockInfo>)
    ensures var cs := TrailingChars(blocks);
      && (forall i :: 0 <= i < |blocks| && HasHash(blocks[i]) ==> LastChar(blocks[i]) in cs)
      && (forall k :: 0 <= k < |cs| ==>
            exists i :: 0 <= i < |blocks| && HasHash(blocks[i]) && cs[k] == LastChar(blocks[i]))
    decreases |blocks|
  {
    if blocks != [] {
      var tail := blocks[1..];
      TrailingCharsAreLastChars(tail);
      var rest := TrailingChars(tail);
      var cs := TrailingChars(blocks);
      var head := if HasHash(blocks[0]) then [LastChar(blocks[0])] else [];
      assert cs == head + rest;
      forall i | 0 <= i < |blocks| && HasHash(blocks[i]) ensures LastChar(blocks[i]) in cs {
        if i > 0 {
          assert blocks[i] == tail[i - 1];
          assert LastChar(tail[i - 1]) in rest;
        }
      }
      forall k | 0 <= k < |cs|
        ensures exists i :: 0 <= i < |blocks| && HasHash(blocks[i]) && cs[k] == LastChar(blocks[i])
      {
        if k < |head| {
          assert cs[k] == LastChar(blocks[0]);
        } else {
          assert cs[k] == rest[k - |head|];
          var j :| 0 <= j < |tail| && HasHash(tail[j]) && rest[k - |head|] == LastChar(tail[j]);
          assert blocks[j + 1] == tail[j];
        }
      }
    }
  }

  /** The distinct characters of a sequence. */
  function Chars(cs: seq<char>): set<char>
  {
    set c | c in cs
  }

  /** The `reduce`: a left fold that adds one to the count of each character. */
  function Tally(cs: seq<char>): (m: map<char, nat>)
    ensures m.Keys == Chars(cs)
    ensures forall c :: c in m ==> m[c] == multiset(cs)[c]
    decreases |cs|
  {
    if cs == [] then map[]
    else
      var init, c := cs[..|cs| - 1], cs[|cs| - 1];
      assert cs == init + [c];
      var m := Tally(init);
      m[c := (if c in m then m[c] else 0) + 1]
  }

  /** The keys of the tally in the order they were first inserted. */
  function FirstAppearance(cs: seq<char>): (ks: seq<char>)
    ensures Chars(ks) == Chars(cs)
    ensures forall i, j :: 0 <= i < j < |ks| ==> ks[i] != ks[j]
    decreases |cs|
  {
    if cs == [] then []
    else
      var init, c := cs[..|cs| - 1], cs[|cs| - 1];
      assert cs == init + [c];
      var ks := FirstAppearance(init);
      assert Chars(cs) == Chars(init) + {c};
      assert Chars(ks + [c]) == Chars(ks) + {c};
      if c in ks then ks else ks + [c]
  }

  /** The entries of the tally, key by key in the order given. */
  function Entries(m: map<char, nat>, ks: seq<char>): (es: seq<(char, nat)>)
    requires forall i :: 0 <= i < |ks| ==> ks[i] in m
    ensures |es| == |ks|
    ensures forall i :: 0 <= i < |es| ==> es[i] == (ks[i], m[ks[i]])
  {
    if ks == [] then [] else [(ks[0], m[ks[0]])] + Entries(m, ks[1..])
  }

  function KeySet(es: seq<(char, nat)>): set<char>
  {
    set e | e in es :: e.0
  }

  predicate DistinctKeys(es: seq<(char, nat)>)
  {
    forall i, j :: 0 <= i < j < |es| ==> es[i].0 != es[j].0
  }

  predicate Ascending(es: seq<(char, nat)>)
  {
    forall i, j :: 0 <= i < j < |es| ==> es[i].0 < es[j].0
  }

  function SumCounts(es: seq<(char, nat)>): nat
  {
    if es == [] then 0 else es[0].1 + SumCounts(es[1..])
  }

  /** No entry has key `k`. */
  predicate LacksKey(es: seq<(char, nat)>, k: char)
  {
    forall i :: 0 <= i < |es| ==> es[i].0 != k
  }

  /** Every key is above `b`. */
  predicate Above(es: seq<(char, nat)>, b: char)
  {
    forall i :: 0 <= i < |es| ==> b < es[i].0
  }

  /** One step of the sort: puts an entry in front of the first entry
      with a larger key. */
  function Insert(e: (char, nat), es: seq<(char, nat)>): seq<(char, nat)>
  {
    if es == [] || e.0 < es[0].0 then [e] + es else [es[0]] + Insert(e, es[1..])
  }

  /** The `.sort` by character: code-point order. */
  function SortByChar(es: seq<(char, nat)>): seq<(char, nat)>
  {
    if es == [] then [] else Insert(es[0], SortByChar(es[1..]))
  }

  lemma {:induction false} InsertKeepsBound(e: (char, nat), es: seq<(char, nat)>, b: char)
    requires Above(es, b) && b < e.0
    ensures Above(Insert(e, es), b)
    decreases |es|
  {
    if es != [] && !(e.0 < es[0].0) {
      InsertKeepsBound(e, es[1..], b);
    }
  }

  lemma {:induction false} InsertKeepsMissing(e: (char, nat), es: seq<(char, nat)>, k: char)
    requires LacksKey(es, k) && k != e.0
    ensures LacksKey(Insert(e, es), k)
    decreases |es|
  {
    if es != [] && !(e.0 < es[0].0) {
      InsertKeepsMissing(e, es[1..], k);
    }
  }

  lemma {:induction false} InsertAscending(e: (char, nat), es: seq<(char, nat)>)
    requires Ascending(es) && LacksKey(es, e.0)
    ensures Ascending(Insert(e, es))
    decreases |es|
  {
    if es == [] || e.0 < es[0].0 {
      assert Above(es, e.0);
    } else {
      var rest := Insert(e, es[1..]);
      InsertAscending(e, es[1..]);
      InsertKeepsBound(e, es[1..], es[0].0);
      var r := [es[0]] + rest;
      forall i, j | 0 <= i < j < |r| ensures r[i].0 < r[j].0 {
        if i > 0 {
          assert r[i] == rest[i - 1] && r[j] == rest[j - 1];
        } else {
          assert r[j] == rest[j - 1];
        }
      }
    }
  }

  /** Inserting an entry with a new key into an ascending list keeps it
      ascending, adds exactly that entry and adds its count to the sum. */
  lemma {:induction false} InsertCorrect(e: (char, nat), es: seq<(char, nat)>)
    requires Ascending(es) && LacksKey(es, e.0)
    ensures Ascending(Insert(e, es))
    ensures multiset(Insert(e, es)) == multiset(es) + multiset{e}
    ensures SumCounts(Insert(e, es)) == SumCounts(es) + e.1
    decreases |es|
  {
    InsertAscending(e, es);
    if es == [] || e.0 < es[0].0 {
      assert ([e] + es)[1..] == es;
    } else {
      assert es == [es[0]] + es[1..];
      var rest := Insert(e, es[1..]);
      InsertCorrect(e, es[1..]);
      assert ([es[0]] + rest)[1..] == rest;
    }
  }

  /** Sorting entries with distinct keys gives them in strictly ascending
      key order, loses or adds none and keeps the sum of the counts. */
  lemma {:induction false} SortCorrect(es: seq<(char, nat)>)
    requires DistinctKeys(es)
    ensures Ascending(SortByChar(es))
    ensures multiset(SortByChar(es)) == multiset(es)
    ensures SumCounts(SortByChar(es)) == SumCounts(es)
    decreases |es|
  {
    if es != [] {
      assert es == [es[0]] + es[1..];
      var rest := SortByChar(es[1..]);
      SortCorrect(es[1..]);
      SortKeepsMissing(es[1..], es[0].0);
      InsertCorrect(es[0], rest);
    }
  }

  lemma {:induction false} SortKeepsMissing(es: seq<(char, nat)>, k: char)
    requires LacksKey(es, k)
    ensures LacksKey(SortByChar(es), k)
    decreases |es|
  {
    if es != [] {
      SortKeepsMissing(es[1..], k);
      InsertKeepsMissing(es[0], SortByChar(es[1..]), k);
    }
  }

  /** The first sixteen historical blocks, `historicalBlocks.slice(0, 16)`. */
  function FirstSixteen(history: seq<BlockInfo>): seq<BlockInfo>
  {
    SliceHead(history, 16)
  }

  /** The entries of the tally with the keys in insertion order.
      `Object.entries` lists the digit keys `'0'`-`'9'` first, in ascending
      order; the sort that follows removes the difference. */
  function TallyEntries(cs: seq<char>): seq<(char, nat)>
  {
    Entries(Tally(cs), FirstAppearance(cs))
  }

  /** The sorted `[char, count]` entries before they are rendered. */
  function Frequencies(history: seq<BlockInfo>): seq<(char, nat)>
  {
    SortByChar(TallyEntries(TrailingChars(FirstSixteen(history))))
  }

  function EntryText(e: (char, nat)): string
  {
    [e.0] + ":" + Decimal(e.1)
  }

  /** `.map(([char, count]) => `${char}:${count}`)`. */
  function EntryTexts(es: seq<(char, nat)>): seq<string>
  {
    if es == [] then [] else [EntryText(es[0])] + EntryTexts(es[1..])
  }

  /** Every rendered entry reads back as its character, a colon and its
      count in decimal. */
  lemma {:induction false} EntryTextsReadBack(es: seq<(char, nat)>)
    ensures |EntryTexts(es)| == |es|
    ensures forall i :: 0 <= i < |es| ==>
      var t := EntryTexts(es)[i];
      && |t| >= 3 && t[0] == es[i].0 && t[1] == ':' && AllDigits(t[2..])
      && DecimalValue(t[2..]) == es[i].1
  {
    if es != [] {
      EntryTextsReadBack(es[1..]);
      var t := EntryText(es[0]);
      assert t[2..] == Decimal(es[0].1);
      DecimalRoundTrip(es[0].1);
      forall i | 0 <= i < |es|
        ensures var t := EntryTexts(es)[i];
          && |t| >= 3 && t[0] == es[i].0 && t[1] == ':' && AllDigits(t[2..])
          && DecimalValue(t[2..]) == es[i].1
      {
        if i > 0 {
          assert EntryTexts(es)[i] == EntryTexts(es[1..])[i - 1];
        }
      }
    }
  }

  /** Entries whose character is not a space render without a space, so
      the single spaces of the join are the only ones in the text. */
  lemma EntryTextsWithoutSpace(es: seq<(char, nat)>)
    requires forall e :: e in es ==> e.0 != ' '
    ensures forall i :: 0 <= i < |EntryTexts(es)| ==> ' ' !in EntryTexts(es)[i]
  {
    EntryTextsReadBack(es);
    forall i | 0 <= i < |EntryTexts(es)| ensures ' ' !in EntryTexts(es)[i] {
      var t := EntryTexts(es)[i];
      assert es[i] in es;
      forall j | 0 <= j < |t| ensures t[j] != ' ' {
        if j >= 2 {
          assert t[j] == t[2..][j - 2];
        }
      }
    }
  }

  /** Entries whose keys are not spaces, joined by single spaces, split back
      into the same entry texts. */
  lemma SplitEntryTexts(es: seq<(char, nat)>)
    requires es != []
    ensures (forall e :: e in es ==> e.0 != ' ') ==> Split(JoinWith(EntryTexts(es), ' '), ' ') == EntryTexts(es)
  {
    if forall e :: e in es ==> e.0 != ' ' {
      EntryTextsReadBack(es);
      EntryTextsWithoutSpace(es);
      SplitJoined(EntryTexts(es), ' ');
    }
  }

  /** `getLastCharFrequency`: `'N/A'` for an empty history, otherwise the
      `c:n` entries joined by single spaces. */
  function LastCharFrequency(history: seq<BlockInfo>): (r: string)
    ensures r == "N/A" <==> history == []
    ensures history != [] && Frequencies(history) == [] ==> r == ""
    ensures history != [] && Frequencies(history) != [] && (forall e :: e in Frequencies(history) ==> e.0 != ' ') ==>
      Split(r, ' ') == EntryTexts(Frequencies(history))
  {
    if |history| == 0 then "N/A"
    else
      var ts := EntryTexts(Frequencies(history));
      if ts == [] then "" else
        EntryTextsReadBack(Frequencies(history));
        JoinStartsWithFirst(ts, ' ');
        assert JoinWith(ts, ' ')[1] == ts[0][1] == ':';
        SplitEntryTexts(Frequencies(history));
        JoinWith(ts, ' ')
  }

  function SumOver(ks: seq<char>, ms: multiset<char>): nat
  {
    if ks == [] then 0 else ms[ks[0]] + SumOver(ks[1..], ms)
  }

  lemma {:induction false} SumOverAppend(ks: seq<char>, c: char, ms: multiset<char>)
    ensures SumOver(ks + [c], ms) == SumOver(ks, ms) + ms[c]
    decreases |ks|
  {
    if ks != [] {
      assert (ks + [c])[1..] == ks[1..] + [c];
      SumOverAppend(ks[1..], c, ms);
    }
  }

  lemma {:induction false} SumOverAdd(ks: seq<char>, c: char, ms: multiset<char>)
    requires forall i, j :: 0 <= i < j < |ks| ==> ks[i] != ks[j]
    ensures SumOver(ks, ms + multiset{c}) == SumOver(ks, ms) + (if c in ks then 1 else 0)
    decreases |ks|
  {
    if ks != [] {
      SumOverAdd(ks[1..], c, ms);
      assert c in ks[1..] ==> c != ks[0] by {
        if c in ks[1..] {
          var j :| 0 <= j < |ks[1..]| && ks[1..][j] == c;
          assert ks[j + 1] == c;
        }
      }
      assert c in ks <==> c == ks[0] || c in ks[1..] by {
        assert ks == [ks[0]] + ks[1..];
      }
    }
  }

  /** Summing the multiplicities over the distinct characters counts every
      character once. */
  lemma {:induction false} SumOverFirstAppearance(cs: seq<char>)
    ensures SumOver(FirstAppearance(cs), multiset(cs)) == |cs|
    decreases |cs|
  {
    if cs != [] {
      var init, c := cs[..|cs| - 1], cs[|cs| - 1];
      assert cs == init + [c];
      var ks := FirstAppearance(init);
      SumOverFirstAppearance(init);
      SumOverAdd(ks, c, multiset(init));
      if c !in ks {
        SumOverAppend(ks, c, multiset(cs));
        assert c !in init by {
          assert c in init ==> c in Chars(init);
        }
        assert multiset(init)[c] == 0;
      }
    }
  }

  lemma {:induction false} EntriesSum(m: map<char, nat>, ks: seq<char>, ms: multiset<char>)
    requires forall i :: 0 <= i < |ks| ==> ks[i] in m && m[ks[i]] == ms[ks[i]]
    ensures SumCounts(Entries(m, ks)) == SumOver(ks, ms)
    decreases |ks|
  {
    if ks != [] {
      EntriesSum(m, ks[1..], ms);
      assert Entries(m, ks)[1..] == Entries(m, ks[1..]);
    }
  }

  /** The tally's entries before sorting: one per distinct character, with
      its number of occurrences, adding up to the number of characters. */
  lemma TallyEntriesCorrect(cs: seq<char>)
    ensures var u := TallyEntries(cs);
      && DistinctKeys(u)
      && KeySet(u) == Chars(cs)
      && (forall e :: e in u ==> e.1 == multiset(cs)[e.0] >= 1)
      && SumCounts(u) == |cs|
  {
    TallyEntriesSum(cs);
    TallyEntriesCounts(cs);
    TallyEntriesKeys(cs);
  }

  lemma TallyEntriesSum(cs: seq<char>)
    ensures DistinctKeys(TallyEntries(cs)) && SumCounts(TallyEntries(cs)) == |cs|
  {
    var ks := FirstAppearance(cs);
    var m := Tally(cs);
    forall i | 0 <= i < |ks| ensures ks[i] in m && m[ks[i]] == multiset(cs)[ks[i]] {
      assert ks[i] in Chars(ks);
    }
    EntriesSum(m, ks, multiset(cs));
    SumOverFirstAppearance(cs);
  }

  lemma TallyEntriesCounts(cs: seq<char>)
    ensures forall e :: e in TallyEntries(cs) ==> e.1 == multiset(cs)[e.0] >= 1
  {
    var ks := FirstAppearance(cs);
    var m := Tally(cs);
    var u := Entries(m, ks);
    forall e | e in u ensures e.1 == multiset(cs)[e.0] >= 1 {
      var i :| 0 <= i < |u| && u[i] == e;
      assert ks[i] in Chars(ks);
      assert e == (ks[i], m[ks[i]]);
    }
  }

  lemma TallyEntriesKeys(cs: seq<char>)
    ensures KeySet(TallyEntries(cs)) == Chars(cs)
  {
    var ks := FirstAppearance(cs);
    var m := Tally(cs);
    var u := Entries(m, ks);
    forall k | k in cs ensures k in KeySet(u) {
      assert k in Chars(ks);
      var i :| 0 <= i < |ks| && ks[i] == k;
      assert u[i] in u;
    }
    forall k | k in KeySet(u) ensures k in cs {
      var e :| e in u && e.0 == k;
      var i :| 0 <= i < |u| && u[i] == e;
      assert ks[i] in Chars(ks);
    }
  }

  /** Sorting keeps the same entries. */
  lemma SortedSameEntries(u: seq<(char, nat)>)
    requires DistinctKeys(u)
    ensures var r := SortByChar(u);
      && Ascending(r) && SumCounts(r) == SumCounts(u)
      && KeySet(r) == KeySet(u)
      && (forall e :: e in r ==> e in u)
  {
    SortCorrect(u);
    var r := SortByChar(u);
    assert forall e :: e in r <==> e in u by {
      assert forall e :: e in r <==> e in multiset(r);
      assert forall e :: e in u <==> e in multiset(u);
    }
  }

  /** The histogram lists each trailing character of the first sixteen
      non-empty hashes once, in ascending order, with its number of
      occurrences (at least one); the counts add up to the number of blocks
      among the first sixteen whose hash is not empty. */
  lemma FrequenciesCorrect(history: seq<BlockInfo>)
    ensures var es := Frequencies(history); var cs := TrailingChars(FirstSixteen(history));
      && Ascending(es)
      && KeySet(es) == Chars(cs)
      && (forall i :: 0 <= i < |es| ==> es[i].1 == multiset(cs)[es[i].0] >= 1)
      && (forall i :: 0 <= i < |es| ==> es[i].1 == EndingIn(FirstSixteen(history), es[i].0))
      && SumCounts(es) == |cs| == HashedCount(FirstSixteen(history))
  {
    var cs := TrailingChars(FirstSixteen(history));
    TallyEntriesCorrect(cs);
    SortedSameEntries(TallyEntries(cs));
    var es := Frequencies(history);
    assert forall i :: 0 <= i < |es| ==> es[i] in es;
  }

  /** Only the first sixteen blocks are inspected. */
  lemma OnlyFirstSixteen(history: seq<BlockInfo>, older: seq<BlockInfo>)
    requires |history| >= 16
    ensures LastCharFrequency(history + older) == LastCharFrequency(history)
  {
    assert FirstSixteen(history + older) == FirstSixteen(history);
  }

  lemma {:induction false} TrailingCharsAppend(a: seq<BlockInfo>, b: seq<BlockInfo>)
    ensures TrailingChars(a + b) == TrailingChars(a) + TrailingChars(b)
    decreases |a|
  {
    if a != [] {
      assert (a + b)[0] == a[0];
      assert (a + b)[1..] == a[1..] + b;
      TrailingCharsAppend(a[1..], b);
    } else {
      assert a + b == b;
    }
  }

  /** A block whose hash is absent or empty contributes nothing. */
  lemma UnhashedContributesNothing(before: seq<BlockInfo>, b: BlockInfo, after: seq<BlockInfo>)
    requires !HasHash(b)
    ensures TrailingChars(before + [b] + after) == TrailingChars(before + after)
  {
    TrailingCharsAppend(before + [b], after);
    TrailingCharsAppend(before, [b]);
    TrailingCharsAppend(before, after);
  }

  /** An empty history shows 'N/A'; a non-empty one whose first sixteen
      hashes are all empty shows the empty string instead. */
  lemma FrequencyPlaceholders(history: seq<BlockInfo>)
    ensures history == [] ==> LastCharFrequency(history) == "N/A"
    ensures history != [] && (forall i :: 0 <= i < |history| && i < 16 ==> !HasHash(history[i])) ==>
      LastCharFrequency(history) == ""
  {
    if history != [] && (forall i :: 0 <= i < |history| && i < 16 ==> !HasHash(history[i])) {
      var first := FirstSixteen(history);
      assert forall i :: 0 <= i < |first| ==> !HasHash(first[i]);
      NoHashNoChars(first);
      FrequenciesCorrect(history);
    }
  }

  lemma {:induction false} NoHashNoChars(blocks: seq<BlockInfo>)
    requires forall i :: 0 <= i < |blocks| ==> !HasHash(blocks[i])
    ensures TrailingChars(blocks) == []
    decreases |blocks|
  {
    if blocks != [] {
      NoHashNoChars(blocks[1..]);
    }
  }
}
