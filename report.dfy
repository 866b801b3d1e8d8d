/**
 * format_position_message: the aggregated positions rendered as the lines of the
 * Telegram message, joined with newlines.
 */
module Report {
  import opened Wrappers
  import opened Records
  import opened Text

  const NoData := "No position data available"

  function Header(email: string): string { "<b>Deribit</b> " + email }

  /** `position.get('direction', '') == "sell"` */
  predicate IsSell(p: Position) { p.direction.GetOr("") == "sell" }

  /** The base-currency size shown, in units of 10^-5: negative magnitude for a sell, else positive. */
  function DisplayBtc(p: Position): int
  {
    var raw := p.sizeCurrency.GetOr(0);
    if IsSell(p) then -(Abs(raw) as int) else Abs(raw)
  }

  /** The quote-currency size shown: negative magnitude for a sell, else positive. */
  function DisplayUsd(p: Position): int
  {
    if IsSell(p) then -(Abs(SizeOf(p)) as int) else Abs(SizeOf(p))
  }

  function DirectionTag(p: Position): string { if IsSell(p) then "SHORT" else "LONG" }

  /** A missing, null or zero liquidation price is shown as "-", any other to two decimals. */
  function LiquidationText(p: Position): string
  {
    match p.estimatedLiquidationPrice
    case None => "-"
    case Some(v) => if v == 0 then "-" else Fixed(v, 2)
  }

  function PositionLine(p: Position): string
  {
    "Position: " + p.instrumentName.GetOr("Unknown") + " | " + DirectionTag(p) + " | " +
    Fixed(DisplayBtc(p), 5) + " BTC / (" + QuoteText(DisplayUsd(p)) + " USD)"
  }

  function LiquidationLine(p: Position): string { "Liquidation: " + LiquidationText(p) }

  /** The two lines of one position. */
  function PositionPair(p: Position): seq<string> { [PositionLine(p), LiquidationLine(p)] }

  /** The pairs of lines of the positions, in order. */
  function PositionPairs(ps: seq<Position>): (bs: seq<seq<string>>)
    ensures |bs| == |ps|
  {
    seq(|ps|, i requires 0 <= i < |ps| => PositionPair(ps[i]))
  }

  /** The lines of an account's positions: two per position, one empty line between positions. */
  function PositionLines(ps: seq<Position>): seq<string>
  {
    Joined(PositionPairs(ps), [""])
  }

  /** The header of an account, then its positions or the placeholder pair. */
  function AccountBlock(r: AccountPositions): seq<string>
  {
    [Header(r.email)] +
    if r.positions == [] then ["Position: -", "Liquidation: -"] else PositionLines(r.positions)
  }

  /** The account blocks of a report, one per account, in order. */
  function Blocks(rs: seq<AccountPositions>): (bs: seq<seq<string>>)
    ensures |bs| == |rs|
  {
    seq(|rs|, i requires 0 <= i < |rs| => AccountBlock(rs[i]))
  }

  /** Blocks of lines laid out in order, the lines `sep` between consecutive blocks. */
  function Joined(bs: seq<seq<string>>, sep: seq<string>): seq<string>
  {
    if bs == [] then []
    else
      var init := bs[..|bs| - 1];
      Joined(init, sep) + (if init == [] then [] else sep) + bs[|bs| - 1]
  }

  /** Blocks of lines each followed by the lines `sep`, as the loop appends them. */
  function Terminated(bs: seq<seq<string>>, sep: seq<string>): seq<string>
  {
    if bs == [] then [] else Terminated(bs[..|bs| - 1], sep) + bs[|bs| - 1] + sep
  }

  /** The lines of the message. */
  function ReportLines(rs: seq<AccountPositions>): seq<string>
  {
    Joined(Blocks(rs), ["", ""])
  }

  /** The message text. */
  function ReportText(rs: seq<AccountPositions>): string
  {
    if rs == [] then NoData else JoinLines(ReportLines(rs))
  }

  /** Joining one more block adds the separator, unless it is the first, and the block. */
  lemma JoinedSnoc(bs: seq<seq<string>>, b: seq<string>, sep: seq<string>)
    ensures Joined(bs + [b], sep) == Joined(bs, sep) + (if bs == [] then [] else sep) + b
  {
    assert (bs + [b])[..|bs|] == bs;
  }

  /** The lines of one more position: an empty line unless it is the first, then its pair. */
  lemma PositionLinesSnoc(ps: seq<Position>, i: nat)
    requires i < |ps|
    ensures PositionLines(ps[..i + 1]) ==
      PositionLines(ps[..i]) + (if i == 0 then [] else [""]) + [PositionLine(ps[i]), LiquidationLine(ps[i])]
  {
    assert PositionPairs(ps[..i + 1]) == PositionPairs(ps[..i]) + [PositionPair(ps[i])];
    JoinedSnoc(PositionPairs(ps[..i]), PositionPair(ps[i]), [""]);
  }

  /** Dropping the final separator from the terminated layout gives the joined one. */
  lemma {:induction false} TerminatedIsJoinedAndSeparator(bs: seq<seq<string>>, sep: seq<string>)
    requires bs != []
    ensures Terminated(bs, sep) == Joined(bs, sep) + sep
  {
    if |bs| > 1 {
      TerminatedIsJoinedAndSeparator(bs[..|bs| - 1], sep);
    }
  }

  /** The two lines of one position, computed as the loop body of format_position_message does. */
  method FormatPosition(position: Position) returns (positionLine: string, liquidationLine: string)
    ensures positionLine == PositionLine(position)
    ensures liquidationLine == LiquidationLine(position)
  {
    var sizeBtc := position.sizeCurrency.GetOr(0);
    var sizeUsd := position.size.GetOr(0);
    var directionField := position.direction.GetOr("");
    var displayBtc: int, displayUsd: int, direction: string;
    if directionField == "sell" {
      displayBtc, displayUsd, direction := -(Abs(sizeBtc) as int), -(Abs(sizeUsd) as int), "SHORT";
    } else {
      displayBtc, displayUsd, direction := Abs(sizeBtc), Abs(sizeUsd), "LONG";
    }
    var instrument := position.instrumentName.GetOr("Unknown");
    var liquidation := "-";
    if position.estimatedLiquidationPrice.Some? && position.estimatedLiquidationPrice.value != 0 {
      liquidation := Fixed(position.estimatedLiquidationPrice.value, 2);
    }
    var formattedUsd := Grouped(Digits(Abs(displayUsd)));
    if displayUsd < 0 {
      formattedUsd := "-" + formattedUsd;
    }
    assert displayBtc == DisplayBtc(position) && displayUsd == DisplayUsd(position);
    assert direction == DirectionTag(position) && liquidation == LiquidationText(position);
    assert formattedUsd == QuoteText(displayUsd);
    positionLine := "Position: " + instrument + " | " + direction + " | " + Fixed(displayBtc, 5) +
      " BTC / (" + formattedUsd + " USD)";
    liquidationLine := "Liquidation: " + liquidation;
  }

  /** The inner loop over a non-empty list of positions: appends their lines. */
  method AppendPositions(lines: seq<string>, positions: seq<Position>) returns (out: seq<string>)
    ensures out == lines + PositionLines(positions)
  {
    out := lines;
    var i := 0;
    while i < |positions|
      invariant 0 <= i <= |positions|
      invariant out == lines + PositionLines(positions[..i])
    {
      var position := positions[i];
      PositionLinesSnoc(positions, i);
      var positionLine, liquidationLine := FormatPosition(position);
      if i > 0 {
        out := out + [""];
      }
      out := out + [positionLine, liquidationLine];
      i := i + 1;
    }
    assert positions[..i] == positions;
  }

  /** One iteration of the outer loop: the account's block and the two separating empty lines. */
  method AppendAccount(lines: seq<string>, result: AccountPositions) returns (out: seq<string>)
    ensures out == lines + AccountBlock(result) + ["", ""]
  {
    out := lines + [Header(result.email)];
    if result.positions != [] {
      out := AppendPositions(out, result.positions);
    } else {
      out := out + ["Position: -", "Liquidation: -"];
    }
    out := out + ["", ""];
  }

  method FormatPositionMessage(results: seq<AccountPositions>) returns (text: string)
    ensures results == [] ==> text == NoData
    ensures text == ReportText(results)
  {
    if results == [] {
      return NoData;
    }
    var messageLines: seq<string> := [];
    var j := 0;
    while j < |results|
      invariant 0 <= j <= |results|
      invariant messageLines == Terminated(Blocks(results[..j]), ["", ""])
    {
      assert Blocks(results[..j + 1])[..j] == Blocks(results[..j]);
      messageLines := AppendAccount(messageLines, results[j]);
      j := j + 1;
    }
    assert results[..j] == results;
    assert Blocks(results) != [];
    TerminatedIsJoinedAndSeparator(Blocks(results), ["", ""]);
    ReportLinesEnds(results);
    ghost var report := ReportLines(results);
    assert messageLines == report + ["", ""];
    if |messageLines| > 0 && messageLines[|messageLines| - 1] == "" {
      messageLines := messageLines[..|messageLines| - 1];
    }
    assert messageLines == report + [""];
    if |messageLines| > 0 && messageLines[|messageLines| - 1] == "" {
      messageLines := messageLines[..|messageLines| - 1];
    }
    assert messageLines == report;
    text := JoinLines(messageLines);
  }

  /**
   * The empty report is the placeholder text and nothing else. This holds by the
   * definition of `ReportText`; the method's own contract carries the same case.
   */
  lemma EmptyReport()
    ensures ReportText([]) == NoData
  {
  }

  /**
   * Direction "sell" shows both sizes as the negative magnitude and tags SHORT; any
   * other direction shows both as the magnitude and tags LONG, whatever the raw sign.
   * This only unfolds the definitions; what the rendered text then shows is stated
   * by `MinusExactlyForSell`.
   */
  lemma DirectionOverridesSign(p: Position)
    ensures IsSell(p) ==>
      (DirectionTag(p) == "SHORT" &&
       DisplayBtc(p) == -(Abs(p.sizeCurrency.GetOr(0)) as int) && DisplayUsd(p) == -(Abs(SizeOf(p)) as int))
    ensures !IsSell(p) ==>
      (DirectionTag(p) == "LONG" &&
       DisplayBtc(p) == Abs(p.sizeCurrency.GetOr(0)) && DisplayUsd(p) == Abs(SizeOf(p)))
  {
  }

  /**
   * Both rendered sizes carry a leading '-' exactly for a sell of non-zero size; a
   * position of any other direction never shows one, even with a negative raw size.
   */
  lemma {:induction false} MinusExactlyForSell(p: Position)
    ensures Fixed(DisplayBtc(p), 5)[0] == '-' <==> IsSell(p) && p.sizeCurrency.GetOr(0) != 0
    ensures QuoteText(DisplayUsd(p))[0] == '-' <==> IsSell(p) && SizeOf(p) != 0
  {
    FixedShape(DisplayBtc(p), 5);
    QuoteTextShape(DisplayUsd(p));
  }

  /**
   * The quote size as shown: without its '.' separators it is the decimal digits of
   * the magnitude, a '.' stands exactly every four characters from the right, and the
   * '-' marks exactly a negative displayed size.
   */
  lemma {:induction false} QuoteSizeText(p: Position)
    ensures var t := QuoteText(DisplayUsd(p));
      var body := t[|Sign(DisplayUsd(p))|..];
      (t[0] == '-' <==> DisplayUsd(p) < 0) &&
      WithoutDots(body) == Digits(Abs(SizeOf(p))) && Value(WithoutDots(body)) == Abs(SizeOf(p)) &&
      forall i :: 0 <= i < |body| ==> (body[i] == '.' <==> (|body| - i) % 4 == 0)
  {
    QuoteTextShape(DisplayUsd(p));
  }

  /**
   * The liquidation field is "-" exactly when the price is absent or zero; the
   * proof is needed for the first clause (a rendered price is never "-"), while the
   * second only unfolds `LiquidationText`.
   */
  lemma {:induction false} LiquidationPlaceholder(p: Position)
    ensures LiquidationText(p) == "-" <==>
      p.estimatedLiquidationPrice.None? || p.estimatedLiquidationPrice.value == 0
    ensures p.estimatedLiquidationPrice.Some? && p.estimatedLiquidationPrice.value != 0 ==>
      LiquidationText(p) == Fixed(p.estimatedLiquidationPrice.value, 2)
  {
    if p.estimatedLiquidationPrice.Some? && p.estimatedLiquidationPrice.value != 0 {
      var v := p.estimatedLiquidationPrice.value;
      UnsignedShape(Abs(v), 2);
      assert |Fixed(v, 2)| >= 4;
    }
  }

  /** The liquidation field always ends in '-' or a digit. */
  lemma {:induction false} LiquidationEndsInMark(p: Position)
    ensures var t := LiquidationText(p); |t| >= 1 && (t[|t| - 1] == '-' || IsDigit(t[|t| - 1]))
  {
    if p.estimatedLiquidationPrice.Some? && p.estimatedLiquidationPrice.value != 0 {
      var v := p.estimatedLiquidationPrice.value;
      UnsignedShape(Abs(v), 2);
      var body := Unsigned(Abs(v), 2);
      var point := |body| - 3;
      assert body[point + 1..][1] == body[|body| - 1];
      assert Fixed(v, 2) == Sign(v) + body;
    }
  }

  /**
   * The lines of an account's positions, in order: for the k-th position its position
   * line at 3k and its liquidation line at 3k + 1, and an empty line at 3k + 2 before
   * the next position.
   */
  lemma PositionLinesLayout(ps: seq<Position>)
    requires ps != []
    ensures var lines := PositionLines(ps);
      |lines| == 3 * |ps| - 1 &&
      (forall k :: 0 <= k < |ps| ==>
        lines[3 * k] == PositionLine(ps[k]) && lines[3 * k + 1] == LiquidationLine(ps[k])) &&
      (forall k :: 0 <= k < |ps| - 1 ==> lines[3 * k + 2] == "")
  {
    var bs := PositionPairs(ps);
    JoinedPairsLayout(bs);
    forall k | 0 <= k < |ps|
      ensures PositionLines(ps)[3 * k] == PositionLine(ps[k])
      ensures PositionLines(ps)[3 * k + 1] == LiquidationLine(ps[k])
    {
      assert bs[k] == PositionPair(ps[k]);
    }
  }

  /** Pairs of lines joined with one empty line: pair k sits at 3k and 3k + 1, an empty line at 3k + 2. */
  lemma {:induction false} JoinedPairsLayout(bs: seq<seq<string>>)
    requires bs != [] && forall i :: 0 <= i < |bs| ==> |bs[i]| == 2
    ensures var lines := Joined(bs, [""]);
      |lines| == 3 * |bs| - 1 &&
      (forall k :: 0 <= k < |bs| ==> lines[3 * k] == bs[k][0] && lines[3 * k + 1] == bs[k][1]) &&
      (forall k :: 0 <= k < |bs| - 1 ==> lines[3 * k + 2] == "")
  {
    var init := bs[..|bs| - 1];
    var lines := Joined(bs, [""]);
    if init == [] {
      assert Joined(init, [""]) == [];
      assert lines == bs[0];
    } else {
      JoinedPairsLayout(init);
      var before := Joined(init, [""]);
      assert lines == before + [""] + bs[|bs| - 1];
      forall k | 0 <= k < |bs|
        ensures lines[3 * k] == bs[k][0] && lines[3 * k + 1] == bs[k][1]
      {
        if k < |init| {
          assert init[k] == bs[k];
          assert lines[3 * k] == before[3 * k] && lines[3 * k + 1] == before[3 * k + 1];
        }
      }
      forall k | 0 <= k < |bs| - 1 ensures lines[3 * k + 2] == "" {
        if k < |init| - 1 {
          assert lines[3 * k + 2] == before[3 * k + 2];
        }
      }
    }
  }

  /**
   * Every account block opens with its header; an account without positions has
   * exactly the placeholder pair after it, one with positions has their lines.
   */
  lemma {:induction false} AccountBlockLayout(r: AccountPositions)
    ensures var b := AccountBlock(r);
      |b| >= 3 && b[0] == Header(r.email) &&
      (r.positions == [] ==> b == [Header(r.email), "Position: -", "Liquidation: -"]) &&
      (r.positions != [] ==> b[1..] == PositionLines(r.positions))
  {
    if r.positions != [] {
      PositionLinesLayout(r.positions);
    }
  }

  /** The first and last lines of an account block are never empty. */
  lemma {:induction false} AccountBlockEnds(r: AccountPositions)
    ensures var b := AccountBlock(r);
      |b| >= 3 && b[0] != "" &&
      b[|b| - 1] == (if r.positions == [] then "Liquidation: -" else LiquidationLine(r.positions[|r.positions| - 1]))
  {
    AccountBlockLayout(r);
    if r.positions != [] {
      PositionLinesLayout(r.positions);
      var ps := r.positions;
      assert 3 * (|ps| - 1) + 1 == |PositionLines(ps)| - 1;
    }
  }

  /** Joining two runs of blocks puts exactly one separator between them. */
  lemma {:induction false} JoinedAppend(a: seq<seq<string>>, b: seq<seq<string>>, sep: seq<string>)
    requires a != [] && b != []
    ensures Joined(a + b, sep) == Joined(a, sep) + sep + Joined(b, sep)
    decreases |b|
  {
    var init, last := b[..|b| - 1], b[|b| - 1];
    if |b| == 1 {
      calc {
        Joined(a + b, sep);
        { assert a + b == a + [last]; JoinedSnoc(a, last, sep); }
        Joined(a, sep) + sep + last;
        { assert b == [] + [last]; JoinedSnoc([], last, sep); }
        Joined(a, sep) + sep + Joined(b, sep);
      }
    } else {
      calc {
        Joined(a + b, sep);
        { assert a + b == (a + init) + [last]; JoinedSnoc(a + init, last, sep); }
        Joined(a + init, sep) + sep + last;
        { JoinedAppend(a, init, sep); }
        Joined(a, sep) + sep + Joined(init, sep) + sep + last;
        Joined(a, sep) + sep + (Joined(init, sep) + sep + last);
        { assert b == init + [last]; JoinedSnoc(init, last, sep); }
        Joined(a, sep) + sep + Joined(b, sep);
      }
    }
  }

  /** With non-empty blocks, the layout starts with the first block's first line and ends with the last block's last line. */
  lemma {:induction false} JoinedEnds(bs: seq<seq<string>>, sep: seq<string>)
    requires bs != [] && forall i :: 0 <= i < |bs| ==> bs[i] != []
    ensures var lines := Joined(bs, sep); var last := bs[|bs| - 1];
      |lines| >= |last| && lines[0] == bs[0][0] && lines[|lines| - 1] == last[|last| - 1]
  {
    if |bs| > 1 {
      var init := bs[..|bs| - 1];
      JoinedEnds(init, sep);
      assert init[0] == bs[0];
    } else {
      assert bs[..0] == [];
    }
  }

  /**
   * Consecutive accounts are separated by exactly two empty lines: joining two
   * reports inserts two, and neither side begins or ends with one.
   */
  lemma ReportLinesAppend(a: seq<AccountPositions>, b: seq<AccountPositions>)
    requires a != [] && b != []
    ensures ReportLines(a + b) == ReportLines(a) + ["", ""] + ReportLines(b)
    ensures ReportLines(a)[|ReportLines(a)| - 1] != "" && ReportLines(b)[0] != ""
  {
    assert Blocks(a + b) == Blocks(a) + Blocks(b);
    JoinedAppend(Blocks(a), Blocks(b), ["", ""]);
    ReportLinesEnds(a);
    ReportLinesEnds(b);
  }

  /** A report starts with the first account's header and ends with the last line of the last account's block. */
  lemma ReportLinesEnds(rs: seq<AccountPositions>)
    requires rs != []
    ensures var lines := ReportLines(rs); var b := AccountBlock(rs[|rs| - 1]);
      |lines| >= 3 && lines[0] == Header(rs[0].email) && lines[0] != "" &&
      lines[|lines| - 1] == b[|b| - 1] && lines[|lines| - 1] != ""
  {
    var bs := Blocks(rs);
    forall i | 0 <= i < |bs| ensures bs[i] != [] {
      AccountBlockLayout(rs[i]);
    }
    JoinedEnds(bs, ["", ""]);
    AccountBlockEnds(rs[|rs| - 1]);
    AccountBlockLayout(rs[0]);
    AccountBlockEnds(rs[0]);
  }

  /** The joined message never ends with an empty line, nor with a newline. */
  lemma ReportTextEnds(rs: seq<AccountPositions>)
    requires rs != []
    ensures var t := ReportText(rs);
      |t| >= 1 && t[|t| - 1] != '\n' && (t[|t| - 1] == '-' || IsDigit(t[|t| - 1]))
  {
    var lines := ReportLines(rs);
    ReportLinesEnds(rs);
    LastLineEndsInMark(rs);
    JoinLinesLastChar(lines);
  }

  /** The last line of a report ends in '-' or a digit. */
  lemma LastLineEndsInMark(rs: seq<AccountPositions>)
    requires rs != []
    ensures var lines := ReportLines(rs); var last := lines[|lines| - 1];
      |lines| >= 1 && |last| >= 1 && (last[|last| - 1] == '-' || IsDigit(last[|last| - 1]))
  {
    ReportLinesEnds(rs);
    var r := rs[|rs| - 1];
    AccountBlockEnds(r);
    if r.positions != [] {
      LiquidationLineEndsInMark(r.positions[|r.positions| - 1]);
    }
  }

  lemma LiquidationLineEndsInMark(p: Position)
    ensures var l := LiquidationLine(p); |l| >= 1 && (l[|l| - 1] == '-' || IsDigit(l[|l| - 1]))
  {
    LiquidationEndsInMark(p);
    var t := LiquidationText(p);
    assert LiquidationLine(p)[|LiquidationLine(p)| - 1] == t[|t| - 1];
  }

  /** A single account without positions: its header, then the placeholder pair. */
  lemma NoPositionsLines(email: string)
    ensures ReportLines([AccountPositions(email, [])]) == [Header(email), "Position: -", "Liquidation: -"]
  {
    var r := AccountPositions(email, []);
    var bs := Blocks([r]);
    assert bs == [AccountBlock(r)];
    assert bs[..0] == [];
    assert Joined(bs, ["", ""]) == bs[0];
  }

  /** The message for one account without positions is exactly those three lines, joined by newlines. */
  lemma NoPositionsMessage(email: string)
    ensures ReportText([AccountPositions(email, [])]) ==
      Header(email) + "\n" + "Position: -" + "\n" + "Liquidation: -"
  {
    NoPositionsLines(email);
    var lines := [Header(email), "Position: -", "Liquidation: -"];
    assert lines[1..] == ["Position: -", "Liquidation: -"];
    assert lines[1..][1..] == ["Liquidation: -"];
    assert JoinLines(lines[1..]) == "Position: -" + "\n" + "Liquidation: -";
    assert JoinLines(lines) == Header(email) + "\n" + ("Position: -" + "\n" + "Liquidation: -");
    assert ReportText([AccountPositions(email, [])]) == JoinLines(lines);
  }

  /** A buy of 1234567 is shown as 1.234.567. */
  lemma GroupedQuoteExample()
    ensures QuoteText(1234567) == "1.234.567"
  {
    DigitsExample();
    assert Grouped("1") == "1";
    assert "1234"[..1] == "1" && "1234"[1..] == "234";
    assert Grouped("1234") == "1.234";
    assert "1234567"[..4] == "1234" && "1234567"[4..] == "567";
    assert Grouped("1234567") == "1.234.567";
  }

  lemma DigitsExample()
    ensures Digits(1234567) == "1234567"
  {
    assert Digits(1) == "1";
    assert Digits(12) == Digits(1) + "2";
    assert Digits(123) == Digits(12) + "3";
    assert Digits(1234) == Digits(123) + "4";
    assert Digits(12345) == Digits(1234) + "5";
    assert Digits(123456) == Digits(12345) + "6";
    assert Digits(1234567) == Digits(123456) + "7";
  }
}
