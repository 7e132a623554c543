/**
 * The accepted-address record (`TronAddress`, src/main.rs:40-45) and its layout in
 * the output file (src/main.rs:116-121): three labelled lines and a `---` line, each
 * written with `writeln!` and so ended by a newline.
 *
 * `SplitLines` and `ParseAll` read the file back; they invert the layout, so it is
 * unambiguous.
 */
module Records {
  import opened Wrappers
  import Decimal

  datatype Record = Record(address: string, privateKey: string, sameChars: nat)

  /** The field labels of the original deployment: "地址: ", "私钥: ", "相同字符数: ". */
  const AddressLabel := "\U{5730}\U{5740}: "
  const KeyLabel := "\U{79C1}\U{94A5}: "
  const CountLabel := "\U{76F8}\U{540C}\U{5B57}\U{7B26}\U{6570}: "
  const Separator := "---"

  predicate NoNewline(s: string)
  {
    forall i | 0 <= i < |s| :: s[i] != '\n'
  }

  /** A record that can be written without breaking the line structure. */
  predicate LineSafe(r: Record)
  {
    NoNewline(r.address) && NoNewline(r.privateKey)
  }

  /** The four lines of one record, without their newlines. */
  function Lines(r: Record): seq<string>
  {
    [AddressLabel + r.address,
     KeyLabel + r.privateKey,
     CountLabel + Decimal.Show(r.sameChars),
     Separator]
  }

  /** The lines of several records, in order. */
  function AllLines(rs: seq<Record>): (ls: seq<string>)
    ensures |ls| == 4 * |rs|
  {
    if |rs| == 0 then [] else Lines(rs[0]) + AllLines(rs[1..])
  }

  /** Each line followed by a newline, as successive `writeln!` calls produce. */
  function Unlines(ls: seq<string>): string
  {
    if |ls| == 0 then "" else ls[0] + "\n" + Unlines(ls[1..])
  }

  /** The text a batch of records adds to the output file. */
  function RenderAll(rs: seq<Record>): string
  {
    Unlines(AllLines(rs))
  }

  /** Index of the first newline of `s`, or `|s|` when there is none. */
  function FirstNewline(s: string): (k: nat)
    ensures k <= |s|
    ensures k < |s| ==> s[k] == '\n'
    ensures NoNewline(s[..k])
  {
    if |s| == 0 || s[0] == '\n' then 0 else 1 + FirstNewline(s[1..])
  }

  /** The lines of a text; a last fragment without newline counts as a line. */
  function SplitLines(s: string): seq<string>
    decreases |s|
  {
    if |s| == 0 then []
    else
      var k := FirstNewline(s);
      if k == |s| then [s] else [s[..k]] + SplitLines(s[k + 1..])
  }

  /** `line` with `tag` removed from its front, if it starts with it. */
  function StripLabel(tag: string, line: string): (r: Option<string>)
    ensures r.Some? ==> line == tag + r.value
  {
    if |tag| <= |line| && line[..|tag|] == tag then Some(line[|tag|..]) else None
  }

  /** One record from its four lines. */
  function ParseRecord(ls: seq<string>): Option<Record>
    requires |ls| == 4
  {
    match (StripLabel(AddressLabel, ls[0]), StripLabel(KeyLabel, ls[1]), StripLabel(CountLabel, ls[2]))
    case (Some(a), Some(k), Some(c)) =>
      if ls[3] == Separator then
        match Decimal.Parse(c)
        case Some(n) => Some(Record(a, k, n))
        case None => None
      else None
    case _ => None
  }

  /** Records from a sequence of lines, four at a time. */
  function ParseAll(ls: seq<string>): Option<seq<Record>>
    decreases |ls|
  {
    if |ls| == 0 then Some([])
    else if |ls| < 4 then None
    else
      match (ParseRecord(ls[..4]), ParseAll(ls[4..]))
      case (Some(r), Some(rest)) => Some([r] + rest)
      case _ => None
  }

  lemma {:induction false} UnlinesAppend(a: seq<string>, b: seq<string>)
    ensures Unlines(a + b) == Unlines(a) + Unlines(b)
  {
    if |a| == 0 {
      assert a + b == b;
    } else {
      assert (a + b)[1..] == a[1..] + b;
      UnlinesAppend(a[1..], b);
    }
  }

  lemma {:induction false} AllLinesAppend(a: seq<Record>, b: seq<Record>)
    ensures AllLines(a + b) == AllLines(a) + AllLines(b)
  {
    if |a| == 0 {
      assert a + b == b;
    } else {
      assert (a + b)[1..] == a[1..] + b;
      AllLinesAppend(a[1..], b);
    }
  }

  /** Every fourth line, starting with the fourth, is the separator. */
  lemma {:induction false} AllLinesSeparators(rs: seq<Record>)
    ensures forall j | 0 <= j < |rs| :: AllLines(rs)[4 * j + 3] == Separator
  {
    if |rs| > 0 {
      AllLinesSeparators(rs[1..]);
      var ls := AllLines(rs);
      forall j | 0 <= j < |rs| ensures ls[4 * j + 3] == Separator {
        if j > 0 {
          assert ls[4 * j + 3] == AllLines(rs[1..])[4 * (j - 1) + 3];
        }
      }
    }
  }

  /** Writing two groups of records one after the other appends their texts. */
  lemma RenderAllAppend(a: seq<Record>, b: seq<Record>)
    ensures RenderAll(a + b) == RenderAll(a) + RenderAll(b)
  {
    AllLinesAppend(a, b);
    UnlinesAppend(AllLines(a), AllLines(b));
  }

  /** Splitting undoes `Unlines` when no line holds a newline. */
  lemma {:induction false} SplitUnlines(ls: seq<string>)
    requires forall i | 0 <= i < |ls| :: NoNewline(ls[i])
    ensures SplitLines(Unlines(ls)) == ls
  {
    if |ls| > 0 {
      var s := Unlines(ls);
      var head := ls[0];
      assert s == head + "\n" + Unlines(ls[1..]);
      FirstNewlineAt(head, Unlines(ls[1..]));
      assert s[..|head|] == head;
      assert s[|head| + 1..] == Unlines(ls[1..]);
      SplitUnlines(ls[1..]);
    }
  }

  lemma FirstNewlineAt(head: string, tail: string)
    requires NoNewline(head)
    ensures FirstNewline(head + "\n" + tail) == |head|
    decreases |head|
  {
    if |head| > 0 {
      assert (head + "\n" + tail)[1..] == head[1..] + "\n" + tail;
      FirstNewlineAt(head[1..], tail);
    }
  }

  lemma LinesSafe(r: Record)
    requires LineSafe(r)
    ensures forall i | 0 <= i < 4 :: NoNewline(Lines(r)[i])
  {
    var digits := Decimal.Show(r.sameChars);
    assert NoNewline(digits) by {
      forall i | 0 <= i < |digits| ensures digits[i] != '\n' {
        assert Decimal.IsDigit(digits[i]);
      }
    }
  }

  lemma {:induction false} AllLinesSafe(rs: seq<Record>)
    requires forall j | 0 <= j < |rs| :: LineSafe(rs[j])
    ensures forall i | 0 <= i < |AllLines(rs)| :: NoNewline(AllLines(rs)[i])
  {
    if |rs| > 0 {
      LinesSafe(rs[0]);
      AllLinesSafe(rs[1..]);
    }
  }

  /** Each record occupies exactly four lines of the file, the last one `---`. */
  lemma RenderedLines(rs: seq<Record>)
    requires forall j | 0 <= j < |rs| :: LineSafe(rs[j])
    ensures SplitLines(RenderAll(rs)) == AllLines(rs)
    ensures |SplitLines(RenderAll(rs))| == 4 * |rs|
    ensures forall j | 0 <= j < |rs| :: SplitLines(RenderAll(rs))[4 * j + 3] == Separator
  {
    AllLinesSafe(rs);
    SplitUnlines(AllLines(rs));
    AllLinesSeparators(rs);
  }

  lemma ParseLines(r: Record)
    ensures ParseRecord(Lines(r)) == Some(r)
  {
    var ls := Lines(r);
    assert ls[0][..|AddressLabel|] == AddressLabel;
    assert ls[1][..|KeyLabel|] == KeyLabel;
    assert ls[2][..|CountLabel|] == CountLabel;
    assert ls[0][|AddressLabel|..] == r.address;
    assert ls[1][|KeyLabel|..] == r.privateKey;
    assert ls[2][|CountLabel|..] == Decimal.Show(r.sameChars);
    Decimal.ParseShow(r.sameChars);
  }

  lemma {:induction false} ParseAllLines(rs: seq<Record>)
    ensures ParseAll(AllLines(rs)) == Some(rs)
  {
    if |rs| > 0 {
      var ls := AllLines(rs);
      assert ls[..4] == Lines(rs[0]);
      assert ls[4..] == AllLines(rs[1..]);
      ParseLines(rs[0]);
      ParseAllLines(rs[1..]);
      assert rs == [rs[0]] + rs[1..];
    }
  }

  /** Reading the output file back yields the written records, in order. */
  lemma ReadBack(rs: seq<Record>)
    requires forall j | 0 <= j < |rs| :: LineSafe(rs[j])
    ensures ParseAll(SplitLines(RenderAll(rs))) == Some(rs)
  {
    RenderedLines(rs);
    ParseAllLines(rs);
  }
}
