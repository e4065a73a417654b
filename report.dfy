/**
 * The text report the root writes for the validator: a first line with the
 * keypoint count, then one line per keypoint holding `i j octave scale `
 * followed by `" " + value` for each descriptor entry (so a double space
 * separates `scale` from the first value). Only the line contents are
 * modelled; opening and writing the file is not.
 */
module Report {
  import opened Keypoints

  /** The decimal digit character of `d`. */
  function DigitChar(d: nat): (c: char)
    requires d < 10
    ensures '0' <= c <= '9'
  {
    ('0' as int + d) as char
  }

  function DigitValue(c: char): (d: nat)
    requires '0' <= c <= '9'
    ensures d < 10 && DigitChar(d) == c
  {
    (c as int - '0' as int) as nat
  }

  lemma DigitRoundTrip(d: nat)
    requires d < 10
    ensures DigitValue(DigitChar(d)) == d
  {
  }

  predicate IsDigits(s: string) {
    forall k :: 0 <= k < |s| ==> '0' <= s[k] <= '9'
  }

  /** Decimal text of a non-negative number, without leading zeros, as `operator<<` writes it. */
  function NatToDecimal(n: nat): (s: string)
    ensures |s| >= 1 && IsDigits(s)
    ensures |s| > 1 ==> s[0] != '0'
    decreases n
  {
    if n < 10 then [DigitChar(n)] else NatToDecimal(n / 10) + [DigitChar(n % 10)]
  }

  /** Decimal text of a signed number: a minus sign in front of the negative ones. */
  function IntToDecimal(x: int): (s: string)
    ensures |s| >= 1 && ' ' !in s
  {
    if x < 0 then "-" + NatToDecimal(-x) else NatToDecimal(x)
  }

  /** Reads back a run of digits. */
  function ParseDigits(s: string): nat
    requires IsDigits(s)
  {
    if s == [] then 0 else ParseDigits(s[..|s| - 1]) * 10 + DigitValue(s[|s| - 1])
  }

  predicate IsIntToken(s: string) {
    if |s| > 0 && s[0] == '-' then |s| > 1 && IsDigits(s[1..]) else |s| > 0 && IsDigits(s)
  }

  function ParseInt(s: string): int
    requires IsIntToken(s)
  {
    if |s| > 0 && s[0] == '-' then -(ParseDigits(s[1..]) as int) else ParseDigits(s)
  }

  lemma {:induction false} NatToDecimalRoundTrip(n: nat)
    ensures ParseDigits(NatToDecimal(n)) == n
    decreases n
  {
    var s := NatToDecimal(n);
    if n < 10 {
      assert s[..0] == [];
      DigitRoundTrip(n);
    } else {
      var high := NatToDecimal(n / 10);
      assert s == high + [DigitChar(n % 10)];
      assert s[..|s| - 1] == high && s[|s| - 1] == DigitChar(n % 10);
      NatToDecimalRoundTrip(n / 10);
      DigitRoundTrip(n % 10);
      assert ParseDigits(s) == ParseDigits(high) * 10 + n % 10;
    }
  }

  /** Every number printed in the report reads back as itself. */
  lemma IntToDecimalRoundTrip(x: int)
    ensures IsIntToken(IntToDecimal(x))
    ensures ParseInt(IntToDecimal(x)) == x
  {
    NatToDecimalRoundTrip(if x < 0 then -x else x);
    if x < 0 {
      assert IntToDecimal(x)[1..] == NatToDecimal(-x);
    } else {
      assert NatToDecimal(x)[0] != '-';
    }
  }

  /** The inner loop of a keypoint line: `" " + value` for every descriptor entry. */
  function DescriptorText(d: seq<uint8>): string {
    if d == [] then "" else " " + IntToDecimal(d[0] as int) + DescriptorText(d[1..])
  }

  /** One keypoint line, without its line terminator. */
  function KeypointLine(kp: Keypoint): string {
    IntToDecimal(kp.i as int) + " " + (IntToDecimal(kp.j as int) + " " + (
      IntToDecimal(kp.octave as int) + " " + (IntToDecimal(kp.scale as int) + " " +
      DescriptorText(kp.descriptor))))
  }

  /** The keypoint lines of a list, in list order. */
  function KeypointLines(kps: seq<Keypoint>): (lines: seq<string>)
    ensures |lines| == |kps|
    ensures forall k :: 0 <= k < |kps| ==> lines[k] == KeypointLine(kps[k])
  {
    if kps == [] then [] else [KeypointLine(kps[0])] + KeypointLines(kps[1..])
  }

  /** The whole report, line by line: the count first, then one line per keypoint. */
  function ReportLines(kps: seq<Keypoint>): (lines: seq<string>)
    ensures |lines| == |kps| + 1
    ensures lines[0] == NatToDecimal(|kps|)
    ensures forall k :: 0 <= k < |kps| ==> lines[k + 1] == KeypointLine(kps[k])
  {
    [NatToDecimal(|kps|)] + KeypointLines(kps)
  }

  /** Tokens separated by single spaces. */
  function Join(tokens: seq<string>): string
    requires |tokens| >= 1
  {
    if |tokens| == 1 then tokens[0] else tokens[0] + " " + Join(tokens[1..])
  }

  /** Splits at every single space; two spaces in a row give an empty token between them. */
  function Split(s: string): (tokens: seq<string>)
    ensures |tokens| >= 1
  {
    if s == [] then [""]
    else if s[0] == ' ' then [""] + Split(s[1..])
    else var rest := Split(s[1..]); [[s[0]] + rest[0]] + rest[1..]
  }

  predicate NoSpaces(tokens: seq<string>) {
    forall k :: 0 <= k < |tokens| ==> ' ' !in tokens[k]
  }

  lemma {:induction false} SplitToken(t: string, rest: string)
    requires ' ' !in t
    ensures Split(t + rest) == [t + Split(rest)[0]] + Split(rest)[1..]
    decreases |t|
  {
    var after := Split(rest);
    if t == [] {
      assert t + rest == rest && t + after[0] == after[0];
      assert after == [after[0]] + after[1..];
    } else {
      assert t[0] in t;
      assert (t + rest)[0] == t[0] && (t + rest)[1..] == t[1..] + rest;
      assert ' ' !in t[1..] by {
        forall k | 0 <= k < |t| - 1 ensures t[1..][k] != ' ' {
          assert t[1..][k] == t[k + 1] && t[k + 1] in t;
        }
      }
      SplitToken(t[1..], rest);
      assert [t[0]] + (t[1..] + after[0]) == t + after[0];
    }
  }

  lemma JoinCons(t: string, rest: seq<string>)
    requires |rest| >= 1
    ensures Join([t] + rest) == t + " " + Join(rest)
  {
    assert ([t] + rest)[1..] == rest;
  }

  /** Splitting a space-joined list of space-free tokens gives the tokens back. */
  lemma {:induction false} SplitJoin(tokens: seq<string>)
    requires |tokens| >= 1 && NoSpaces(tokens)
    ensures Split(Join(tokens)) == tokens
    decreases |tokens|
  {
    if |tokens| == 1 {
      SplitToken(tokens[0], "");
      assert tokens[0] + "" == tokens[0];
      assert Split("") == [""];
    } else {
      var rest := tokens[1..];
      assert NoSpaces(rest) by {
        forall k | 0 <= k < |rest| ensures ' ' !in rest[k] {
          assert rest[k] == tokens[k + 1];
        }
      }
      SplitJoin(rest);
      assert ' ' !in tokens[0];
      assert Join(tokens) == tokens[0] + (" " + Join(rest));
      SplitToken(tokens[0], " " + Join(rest));
      assert (" " + Join(rest))[0] == ' ' && (" " + Join(rest))[1..] == Join(rest);
      assert Split(" " + Join(rest)) == [""] + rest;
      assert tokens[0] + "" == tokens[0];
      assert tokens == [tokens[0]] + rest;
    }
  }

  /** The tokens of a descriptor, in descriptor order. */
  function DescriptorTokens(d: seq<uint8>): (tokens: seq<string>)
    ensures |tokens| == |d|
    ensures forall k :: 0 <= k < |d| ==> tokens[k] == IntToDecimal(d[k] as int)
  {
    if d == [] then [] else [IntToDecimal(d[0] as int)] + DescriptorTokens(d[1..])
  }

  lemma {:induction false} DescriptorTextIsJoin(head: string, d: seq<uint8>)
    ensures head + DescriptorText(d) == Join([head] + DescriptorTokens(d))
    decreases |d|
  {
    if d != [] {
      var first := IntToDecimal(d[0] as int);
      DescriptorTextIsJoin(first, d[1..]);
      assert ([head] + DescriptorTokens(d))[1..] == [first] + DescriptorTokens(d[1..]);
      assert head + DescriptorText(d) == head + " " + (first + DescriptorText(d[1..]));
    }
  }

  /** The tokens of a keypoint line: the four key fields, an empty token, the 128 values. */
  function LineTokens(kp: Keypoint): seq<string> {
    [IntToDecimal(kp.i as int), IntToDecimal(kp.j as int),
     IntToDecimal(kp.octave as int), IntToDecimal(kp.scale as int), ""]
      + DescriptorTokens(kp.descriptor)
  }

  /** A keypoint line is its tokens joined by single spaces. */
  lemma KeypointLineIsJoin(kp: Keypoint)
    ensures KeypointLine(kp) == Join(LineTokens(kp))
  {
    var i, j, o, s := IntToDecimal(kp.i as int), IntToDecimal(kp.j as int),
                      IntToDecimal(kp.octave as int), IntToDecimal(kp.scale as int);
    var ds := DescriptorTokens(kp.descriptor);
    var text := DescriptorText(kp.descriptor);
    DescriptorTextIsJoin("", kp.descriptor);
    var t4 := [""] + ds;
    assert Join(t4) == text by {
      assert "" + text == text;
    }
    var t3 := [s] + t4;
    var t2 := [o] + t3;
    var t1 := [j] + t2;
    assert LineTokens(kp) == [i] + t1;
    JoinCons(s, t4);
    JoinCons(o, t3);
    JoinCons(j, t2);
    JoinCons(i, t1);
  }

  lemma LineTokensHaveNoSpaces(kp: Keypoint)
    ensures NoSpaces(LineTokens(kp))
  {
    var toks := LineTokens(kp);
    var ds := DescriptorTokens(kp.descriptor);
    forall k | 0 <= k < |toks|
      ensures ' ' !in toks[k]
    {
      if k >= 5 {
        assert toks[k] == ds[k - 5];
      }
    }
  }

  /**
   * A keypoint line is its key fields, then an empty token (the double
   * space after `scale`), then every descriptor value, each token separated
   * from the next by exactly one space.
   */
  lemma KeypointLineTokens(kp: Keypoint)
    ensures Split(KeypointLine(kp)) == LineTokens(kp)
    ensures |LineTokens(kp)| == 5 + DescriptorLength
    ensures LineTokens(kp)[4] == ""
  {
    KeypointLineIsJoin(kp);
    LineTokensHaveNoSpaces(kp);
    SplitJoin(LineTokens(kp));
  }

  /** The first four tokens of a line (all of them, when it has fewer). */
  function LeadingTokens(line: string): (lead: seq<string>)
    ensures |lead| <= 4 && lead <= Split(line)
  {
    var toks := Split(line);
    if |toks| >= 4 then toks[..4] else toks
  }

  /** The first four tokens of a keypoint line are its key fields, `i j octave scale`. */
  lemma KeypointLineLeadingTokens(kp: Keypoint)
    ensures LeadingTokens(KeypointLine(kp)) == [IntToDecimal(kp.i as int), IntToDecimal(kp.j as int),
                                                IntToDecimal(kp.octave as int), IntToDecimal(kp.scale as int)]
  {
    KeypointLineTokens(kp);
    assert LineTokens(kp)[..4] == [IntToDecimal(kp.i as int), IntToDecimal(kp.j as int),
                                   IntToDecimal(kp.octave as int), IntToDecimal(kp.scale as int)];
  }

  /** What a validator reads from one keypoint line. */
  datatype Entry = Entry(i: int, j: int, octave: int, scale: int, descriptor: seq<int>)

  function EntryOf(kp: Keypoint): Entry {
    Entry(kp.i as int, kp.j as int, kp.octave as int, kp.scale as int,
          seq(DescriptorLength, k requires 0 <= k < DescriptorLength => kp.descriptor[k] as int))
  }

  /**
   * Reads one keypoint line: four integers, the empty token of the double
   * space, then 128 integers; anything else is rejected.
   */
  function ParseKeypointLine(line: string): (e: Option<Entry>)
    ensures e.Some? ==> |e.value.descriptor| == DescriptorLength
  {
    ParseLineTokens(Split(line))
  }

  /** Four integers, an empty token, then 128 integers. */
  predicate IsLineShape(toks: seq<string>) {
    && |toks| == 5 + DescriptorLength && toks[4] == ""
    && IsIntToken(toks[0]) && IsIntToken(toks[1]) && IsIntToken(toks[2]) && IsIntToken(toks[3])
    && (forall k :: 5 <= k < |toks| ==> IsIntToken(toks[k]))
  }

  /** Reads the tokens of one keypoint line. */
  function ParseLineTokens(toks: seq<string>): (e: Option<Entry>)
    ensures e.Some? ==> |e.value.descriptor| == DescriptorLength
  {
    if IsLineShape(toks)
    then Some(Entry(ParseInt(toks[0]), ParseInt(toks[1]), ParseInt(toks[2]), ParseInt(toks[3]),
                    seq(DescriptorLength, k requires 0 <= k < DescriptorLength => ParseInt(toks[k + 5]))))
    else None
  }

  datatype Option<T> = None | Some(value: T)

  lemma DescriptorTokensRoundTrip(d: seq<uint8>, k: nat)
    requires k < |d|
    ensures IsIntToken(DescriptorTokens(d)[k])
    ensures ParseInt(DescriptorTokens(d)[k]) == d[k] as int
  {
    IntToDecimalRoundTrip(d[k] as int);
  }

  /** Every descriptor token reads back as its value. */
  lemma DescriptorTokensParse(d: seq<uint8>)
    ensures forall k :: 0 <= k < |d| ==>
      IsIntToken(DescriptorTokens(d)[k]) && ParseInt(DescriptorTokens(d)[k]) == d[k] as int
  {
    forall k | 0 <= k < |d|
      ensures IsIntToken(DescriptorTokens(d)[k]) && ParseInt(DescriptorTokens(d)[k]) == d[k] as int
    {
      DescriptorTokensRoundTrip(d, k);
    }
  }

  /** Four key tokens, the empty token and the value tokens, each reading back as a field of `e`, parse to `e`. */
  lemma ParseLineTokensOf(i: string, j: string, octave: string, scale: string, values: seq<string>, e: Entry)
    requires IsIntToken(i) && ParseInt(i) == e.i
    requires IsIntToken(j) && ParseInt(j) == e.j
    requires IsIntToken(octave) && ParseInt(octave) == e.octave
    requires IsIntToken(scale) && ParseInt(scale) == e.scale
    requires |values| == |e.descriptor| == DescriptorLength
    requires forall k :: 0 <= k < |values| ==> IsIntToken(values[k]) && ParseInt(values[k]) == e.descriptor[k]
    ensures ParseLineTokens([i, j, octave, scale, ""] + values) == Some(e)
  {
    var toks := [i, j, octave, scale, ""] + values;
    forall k | 5 <= k < |toks|
      ensures IsIntToken(toks[k])
    {
      assert toks[k] == values[k - 5];
    }
    assert IsLineShape(toks);
    var parsed := seq(DescriptorLength, k requires 0 <= k < DescriptorLength => ParseInt(toks[k + 5]));
    forall k | 0 <= k < DescriptorLength
      ensures parsed[k] == e.descriptor[k]
    {
      assert toks[k + 5] == values[k];
    }
    assert parsed == e.descriptor;
  }

  /** The tokens of a keypoint line read back as the keypoint's entry. */
  lemma LineTokensParse(kp: Keypoint)
    ensures ParseLineTokens(LineTokens(kp)) == Some(EntryOf(kp))
  {
    var e := EntryOf(kp);
    var values := DescriptorTokens(kp.descriptor);
    DescriptorTokensParse(kp.descriptor);
    IntToDecimalRoundTrip(kp.i as int);
    IntToDecimalRoundTrip(kp.j as int);
    IntToDecimalRoundTrip(kp.octave as int);
    IntToDecimalRoundTrip(kp.scale as int);
    ParseLineTokensOf(IntToDecimal(kp.i as int), IntToDecimal(kp.j as int),
                      IntToDecimal(kp.octave as int), IntToDecimal(kp.scale as int), values, e);
  }

  /** Every keypoint line reads back as the keypoint's key fields and descriptor. */
  lemma ParseKeypointLineRoundTrip(kp: Keypoint)
    ensures ParseKeypointLine(KeypointLine(kp)) == Some(EntryOf(kp))
  {
    KeypointLineTokens(kp);
    LineTokensParse(kp);
  }

  /**
   * The report reads back completely: the first line is the count, and
   * line `k + 1` is keypoint `k` in list order.
   */
  lemma ReportReadsBack(kps: seq<Keypoint>)
    ensures |ReportLines(kps)| == |kps| + 1
    ensures IsDigits(ReportLines(kps)[0]) && ParseDigits(ReportLines(kps)[0]) == |kps|
    ensures forall k :: 0 <= k < |kps| ==>
      ParseKeypointLine(ReportLines(kps)[k + 1]) == Some(EntryOf(kps[k]))
  {
    NatToDecimalRoundTrip(|kps|);
    forall k | 0 <= k < |kps|
      ensures ParseKeypointLine(ReportLines(kps)[k + 1]) == Some(EntryOf(kps[k]))
    {
      ParseKeypointLineRoundTrip(kps[k]);
    }
  }
}
