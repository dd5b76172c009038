/** Inclusion proofs as text: what `/prove` prints and what `clctl verify` makes of it
    (src/common.h:37-69, src/node_impl.h:584-603, src/clctl.cpp:83-118). */
module ProofText {
  import opened Basics
  import opened Codec
  import opened Merkle
  import opened Pow
  import opened ChainRules
  import opened Agreement
  import opened ChainStore

  // ---------- hex ----------

  function HexDigit(d: nat): char
    requires d < 16
  {
    "0123456789abcdef"[d]
  }

  function Hex(b: Bytes): (s: string)
    ensures |s| == 2 * |b|
  {
    if b == [] then "" else Hex(b[..|b| - 1]) + [HexDigit(b[|b| - 1] / 16), HexDigit(b[|b| - 1] % 16)]
  }

  function HexVal(c: char): (v: int)
    ensures -1 <= v < 16
  {
    if '0' <= c <= '9' then c as int - '0' as int
    else if 'a' <= c <= 'f' then c as int - 'a' as int + 10
    else if 'A' <= c <= 'F' then c as int - 'A' as int + 10
    else -1
  }

  function Unhex(s: string): (b: Option<Bytes>)
    ensures b.Some? ==> 2 * |b.value| == |s|
    decreases |s|
  {
    if |s| % 2 != 0 then None
    else if s == "" then Some([])
    else
      var front := Unhex(s[..|s| - 2]);
      var h, l := HexVal(s[|s| - 2]), HexVal(s[|s| - 1]);
      if front.None? || h < 0 || l < 0 then None else Some(front.value + [16 * h + l])
  }

  function Unhex32(s: string): Option<H256> {
    var b := Unhex(s);
    if b.Some? && |b.value| == 32 then Some(b.value) else None
  }

  lemma {:induction false} HexDigitVal(d: nat)
    requires d < 16
    ensures HexVal(HexDigit(d)) == d
    ensures HexDigit(d) != '\n' && HexDigit(d) != '\r' && HexDigit(d) != ' '
  {
  }

  lemma {:induction false} UnhexNothing()
    ensures Unhex("") == Some([])
  {
  }

  lemma {:induction false} Nibbles(x: byte)
    ensures 16 * (x / 16) + x % 16 == x
  {
  }

  lemma {:induction false} UnhexSnoc(s: string, hi: char, lo: char)
    requires Unhex(s).Some? && HexVal(hi) >= 0 && HexVal(lo) >= 0
    ensures Unhex(s + [hi, lo]) == Some(Unhex(s).value + [16 * HexVal(hi) + HexVal(lo)])
  {
    hide HexVal;
    var t := s + [hi, lo];
    assert t[..|t| - 2] == s;
  }

  /** Digits are printed in lower case, high nibble first, ... */
  lemma {:induction false} HexSample()
    ensures Hex([0x0f, 0xa9]) == "0fa9"
  {
    var b: Bytes := [0x0f, 0xa9];
    assert b[..1] == [0x0f] && b[..1][..0] == [];
  }

  /** ... and read in either. */
  lemma {:induction false} HexCases(c: char)
    ensures 'a' <= c <= 'f' ==> HexVal(c) == HexVal((c as int - 32) as char) == 10 + (c as int - 'a' as int)
    ensures Unhex("0FA9") == Some([0x0f, 0xa9]) == Unhex("0fa9")
  {
    hide Unhex;
    UnhexNothing();
    UnhexSnoc("", '0', 'F');
    UnhexSnoc("", '0', 'f');
    assert "" + ['0', 'F'] == "0F" && "" + ['0', 'f'] == "0f" && [] + [0x0f] == [0x0f];
    UnhexSnoc("0F", 'A', '9');
    UnhexSnoc("0f", 'a', '9');
    assert "0F" + ['A', '9'] == "0FA9" && "0f" + ['a', '9'] == "0fa9" && [0x0f] + [0xa9] == [0x0f, 0xa9];
  }

  /** Reading back what was printed gives the same bytes. */
  lemma {:induction false} UnhexOfHex(b: Bytes)
    ensures Unhex(Hex(b)) == Some(b)
    decreases |b|
  {
    hide HexDigit, HexVal, Unhex;
    if b == [] {
      UnhexNothing();
    } else {
      var k := |b| - 1;
      var hi, lo := HexDigit(b[k] / 16), HexDigit(b[k] % 16);
      UnhexOfHex(b[..k]);
      HexDigitVal(b[k] / 16);
      HexDigitVal(b[k] % 16);
      UnhexSnoc(Hex(b[..k]), hi, lo);
      assert Hex(b) == Hex(b[..k]) + [hi, lo];
      Nibbles(b[k]);
      assert b[..k] + [b[k]] == b;
    }
  }

  /** No line break, and nothing at the end that the verifier strips. */
  ghost predicate Clean(s: string) {
    forall i :: 0 <= i < |s| ==> s[i] != '\n' && s[i] != '\r' && s[i] != ' '
  }

  lemma {:induction false} HexClean(b: Bytes)
    ensures Clean(Hex(b))
    decreases |b|
  {
    hide HexDigit;
    if b != [] {
      HexClean(b[..|b| - 1]);
      HexDigitVal(b[|b| - 1] / 16);
      HexDigitVal(b[|b| - 1] % 16);
    }
  }

  // ---------- decimal ----------

  function Digit(d: nat): char
    requires d < 10
  {
    "0123456789"[d]
  }

  /** Decimal, without leading zeros. */
  function Dec(v: nat): (s: string)
    ensures s != ""
  {
    if v < 10 then [Digit(v)] else Dec(v / 10) + [Digit(v % 10)]
  }

  predicate IsDigit(c: char) {
    '0' <= c <= '9'
  }

  predicate IsSpace(c: char) {
    c == ' ' || '\t' <= c <= '\r'
  }

  /** The number of leading characters of `s` that are digits. */
  function DigitRun(s: string): (k: nat)
    ensures k <= |s|
  {
    if s == "" || !IsDigit(s[0]) then 0 else 1 + DigitRun(s[1..])
  }

  function Number(s: string): nat {
    if s == "" then 0
    else 10 * Number(s[..|s| - 1]) + if IsDigit(s[|s| - 1]) then s[|s| - 1] as int - '0' as int else 0
  }

  /** The C library's reading of a decimal: white space, a sign, digits; saturating. */
  function StrToULL(s: string): u64
    decreases |s|
  {
    if s != "" && IsSpace(s[0]) then StrToULL(s[1..])
    else
      var signed := s != "" && (s[0] == '+' || s[0] == '-');
      var digits := if signed then s[1..] else s;
      var v := Number(digits[..DigitRun(digits)]);
      if v >= U64 then U64 - 1
      else if signed && s[0] == '-' then (U64 - v) % U64
      else v
  }

  ghost predicate AllDigits(s: string) {
    forall i :: 0 <= i < |s| ==> IsDigit(s[i])
  }

  lemma {:induction false} DigitRunAll(s: string)
    requires AllDigits(s)
    ensures DigitRun(s) == |s|
  {
    if s != "" {
      DigitRunAll(s[1..]);
    }
  }

  lemma {:induction false} DecDigits(v: nat)
    ensures AllDigits(Dec(v)) && Number(Dec(v)) == v
  {
    if v < 10 {
      assert Dec(v)[..0] == "";
    } else {
      DecDigits(v / 10);
      var s := Dec(v);
      assert s[..|s| - 1] == Dec(v / 10);
    }
  }

  /** A printed number is read back as itself, or as 2^64 - 1 if it does not fit. */
  lemma {:induction false} StrToULLOfDec(v: nat)
    ensures StrToULL(Dec(v)) == if v < U64 then v else U64 - 1
    ensures v < U64 ==> StrToULL("-" + Dec(v)) == (U64 - v) % U64
    ensures StrToULL("+" + Dec(v)) == StrToULL(" " + Dec(v)) == StrToULL("\t" + Dec(v)) == StrToULL(Dec(v))
  {
    DecDigits(v);
    var s := Dec(v);
    assert IsDigit(s[0]);
    hide Dec, Number;
    DigitRunAll(s);
    assert s[..|s|] == s;
    assert (" " + s)[1..] == s && ("\t" + s)[1..] == s && ("-" + s)[1..] == s && ("+" + s)[1..] == s;
  }

  // ---------- printing ----------

  /** What `/prove` looks up. */
  datatype Doc = Doc(txid: H256, height: u64, index: u32, blockHash: H256, header: Bytes, steps: seq<Step>)

  function StepLine(s: Step): string {
    "sibling " + (if s.left then "L" else "R") + " " + Hex(s.h)
  }

  function StepLines(steps: seq<Step>): string {
    if steps == [] then "" else StepLine(steps[0]) + "\n" + StepLines(steps[1..])
  }

  function Print(d: Doc): string {
    "CHAINLITE-PROOF v1" + "\n"
    + ("txid " + Hex(d.txid) + "\n"
       + ("height " + Dec(d.height) + "\n"
          + ("index " + Dec(d.index) + "\n"
             + ("blockhash " + Hex(d.blockHash) + "\n"
                + ("header " + Hex(d.header) + "\n"
                   + (StepLines(d.steps)
                      + ("end" + "\n")))))))
  }

  // ---------- reading ----------

  datatype Fields = Fields(txid: Option<H256>, height: u64, blockHash: Option<H256>, header: Option<Bytes>,
      steps: seq<Step>)

  function NoFields(): Fields {
    Fields(None, U64 - 1, None, None, [])
  }

  predicate StartsWith(s: string, p: string) {
    p <= s
  }

  function ReadLine(f: Fields, line: string): Fields {
    if StartsWith(line, "txid ") then
      var v := Unhex32(line[5..]);
      if v.Some? then f.(txid := v) else f
    else if StartsWith(line, "height ") then f.(height := StrToULL(line[7..]))
    else if StartsWith(line, "blockhash ") then
      var v := Unhex32(line[10..]);
      if v.Some? then f.(blockHash := v) else f
    else if StartsWith(line, "header ") then
      var v := Unhex(line[7..]);
      if v.Some? && |v.value| == HEADER_SIZE then f.(header := v) else f
    else if StartsWith(line, "sibling ") && |line| > 10 then
      var v := Unhex32(line[10..]);
      if v.Some? then f.(steps := f.steps + [Step(v.value, line[8] == 'L')]) else f
    else f
  }

  /** Position of the next line break, or the end. */
  function LineEnd(s: string): (e: nat)
    ensures e <= |s| && (e < |s| ==> s[e] == '\n')
  {
    if s == "" || s[0] == '\n' then 0 else 1 + LineEnd(s[1..])
  }

  function Strip(s: string): (t: string)
    decreases |s|
  {
    if s != "" && (s[|s| - 1] == '\r' || s[|s| - 1] == ' ') then Strip(s[..|s| - 1]) else s
  }

  function ReadText(f: Fields, s: string): Fields
    decreases |s|
  {
    if s == "" then f
    else
      var e := LineEnd(s);
      ReadText(ReadLine(f, Strip(s[..e])), if e < |s| then s[e + 1..] else "")
  }

  predicate Complete(f: Fields) {
    f.txid.Some? && f.blockHash.Some? && f.header.Some? && |f.header.value| == HEADER_SIZE && f.height != U64 - 1
  }

  datatype Verification = Malformed | Failed | Valid

  /** The local verdict. */
  function LocalVerdict(n: Net, f: Fields): Verification {
    if !Complete(f) then Malformed
    else
      var h := ParseHeader(f.header.value).value.0;
      if n.hash(f.header.value) == f.blockHash.value
         && h.height == f.height
         && Apply(n, f.txid.value, f.steps) == h.merkle
         && (f.height > 0 ==> PowOk(f.blockHash.value, h.bits))
      then Valid else Failed
  }

  /** Exactly what a verified text has shown, from its own bytes: the header has the named
      hash, height and - behind the genesis - proof of work, and the path leads from the id
      to the root the header carries. */
  lemma {:induction false} ValidMeans(n: Net, f: Fields)
    ensures LocalVerdict(n, f) == Valid <==>
            && f.txid.Some? && f.blockHash.Some? && f.header.Some? && |f.header.value| == 100
            && n.hash(f.header.value) == f.blockHash.value
            && f.height == U64At(f.header.value, 72) && f.height != U64 - 1
            && Apply(n, f.txid.value, f.steps) == f.header.value[40..72]
            && (f.height > 0 ==>
                  var bits := U32At(f.header.value, 88);
                  bits <= 256 && FromBE(f.blockHash.value) < Pow2(256 - bits))
    ensures LocalVerdict(n, f) == Malformed <==>
            f.txid.None? || f.blockHash.None? || f.header.None? || |f.header.value| != 100 || f.height == U64 - 1
  {
    hide Apply, PowOk, FromBE, U64At, U32At;
    if Complete(f) {
      PowIsNumericBound(f.blockHash.value, U32At(f.header.value, 88));
    }
  }

  // ---------- reading back what was printed ----------

  lemma {:induction false} LineEndAt(line: string, rest: string)
    requires forall i :: 0 <= i < |line| ==> line[i] != '\n'
    ensures LineEnd(line + "\n" + rest) == |line|
  {
    var s := line + "\n" + rest;
    if line != "" {
      LineEndAt(line[1..], rest);
      assert s[1..] == line[1..] + "\n" + rest;
    }
  }

  /** One printed line is read as that line. */
  lemma {:induction false} ReadPrinted(f: Fields, line: string, rest: string)
    requires forall i :: 0 <= i < |line| ==> line[i] != '\n'
    requires line != "" && line[|line| - 1] != ' ' && line[|line| - 1] != '\r'
    ensures ReadText(f, line + "\n" + rest) == ReadText(ReadLine(f, line), rest)
  {
    hide ReadLine;
    LineEndAt(line, rest);
    var s := line + "\n" + rest;
    assert s[..|line|] == line && s[|line| + 1..] == rest;
    assert Strip(line) == line;
  }

  /** Line ends of either kind, and blanks before them, make no difference. */
  lemma {:induction false} LineEndsAlike(f: Fields, line: string, rest: string)
    requires forall i :: 0 <= i < |line| ==> line[i] != '\n'
    ensures ReadText(f, line + "\r" + "\n" + rest) == ReadText(f, line + "\n" + rest)
    ensures ReadText(f, line + " " + "\n" + rest) == ReadText(f, line + "\n" + rest)
  {
    hide ReadLine;
    StripOne(f, line, '\r', rest);
    StripOne(f, line, ' ', rest);
  }

  lemma {:induction false} StripOne(f: Fields, line: string, c: char, rest: string)
    requires c == '\r' || c == ' '
    requires forall i :: 0 <= i < |line| ==> line[i] != '\n'
    ensures ReadText(f, line + [c] + "\n" + rest) == ReadText(f, line + "\n" + rest)
  {
    hide ReadLine;
    var padded := line + [c];
    LineEndAt(padded, rest);
    LineEndAt(line, rest);
    var s, r := padded + "\n" + rest, line + "\n" + rest;
    assert s[..|padded|] == padded && s[|padded| + 1..] == rest;
    assert r[..|line|] == line && r[|line| + 1..] == rest;
    assert padded[..|padded| - 1] == line;
  }

  lemma {:induction false} ReadTagged(f: Fields, tag: string, body: string, rest: string)
    requires body != "" && Clean(body) && forall i :: 0 <= i < |tag| ==> tag[i] != '\n'
    ensures ReadText(f, tag + body + "\n" + rest) == ReadText(ReadLine(f, tag + body), rest)
    ensures (tag + body)[|tag|..] == body && StartsWith(tag + body, tag)
  {
    ReadPrinted(f, tag + body, rest);
  }

  lemma {:induction false} ReadTxid(f: Fields, x: H256, rest: string)
    ensures ReadText(f, "txid " + Hex(x) + "\n" + rest) == ReadText(f.(txid := Some(x)), rest)
  {
    hide ReadText, Hex, Unhex;
    HexClean(x);
    UnhexOfHex(x);
    ReadTagged(f, "txid ", Hex(x), rest);
  }

  lemma {:induction false} ReadHeight(f: Fields, v: u64, rest: string)
    ensures ReadText(f, "height " + Dec(v) + "\n" + rest) == ReadText(f.(height := v), rest)
  {
    hide ReadText, Dec, StrToULL, Unhex;
    DecDigits(v);
    StrToULLOfDec(v);
    ReadTagged(f, "height ", Dec(v), rest);
    assert ("height " + Dec(v))[0] == 'h';
  }

  lemma {:induction false} ReadIndex(f: Fields, v: u32, rest: string)
    ensures ReadText(f, "index " + Dec(v) + "\n" + rest) == ReadText(f, rest)
  {
    hide ReadText, Dec, StrToULL, Unhex;
    DecDigits(v);
    ReadTagged(f, "index ", Dec(v), rest);
    assert ("index " + Dec(v))[0] == 'i';
  }

  lemma {:induction false} ReadBlockHash(f: Fields, x: H256, rest: string)
    ensures ReadText(f, "blockhash " + Hex(x) + "\n" + rest) == ReadText(f.(blockHash := Some(x)), rest)
  {
    hide ReadText, Hex, Unhex, StrToULL;
    HexClean(x);
    UnhexOfHex(x);
    ReadTagged(f, "blockhash ", Hex(x), rest);
    assert ("blockhash " + Hex(x))[0] == 'b';
  }

  lemma {:induction false} ReadHeaderLine(f: Fields, x: Bytes, rest: string)
    requires |x| == HEADER_SIZE
    ensures ReadText(f, "header " + Hex(x) + "\n" + rest) == ReadText(f.(header := Some(x)), rest)
  {
    hide ReadText, Hex, Unhex, StrToULL;
    HexClean(x);
    UnhexOfHex(x);
    ReadTagged(f, "header ", Hex(x), rest);
    var line := "header " + Hex(x);
    assert line[0] == 'h' && line[2] == 'a';
  }

  lemma {:induction false} ReadStep(f: Fields, s: Step, rest: string)
    ensures ReadText(f, StepLine(s) + "\n" + rest) == ReadText(f.(steps := f.steps + [s]), rest)
  {
    hide ReadText, Hex, Unhex, StrToULL;
    HexClean(s.h);
    UnhexOfHex(s.h);
    var tag := "sibling " + (if s.left then "L" else "R") + " ";
    ReadTagged(f, tag, Hex(s.h), rest);
    var line := tag + Hex(s.h);
    assert line[0] == 's' && line[8] == (if s.left then 'L' else 'R');
    assert StartsWith(line, "sibling ");
  }

  lemma {:induction false} ReadSteps(f: Fields, steps: seq<Step>, rest: string)
    ensures ReadText(f, StepLines(steps) + rest) == ReadText(f.(steps := f.steps + steps), rest)
    decreases |steps|
  {
    hide ReadText, StepLine;
    if steps == [] {
      assert StepLines(steps) + rest == rest && f.steps + steps == f.steps;
    } else {
      assert StepLines(steps) + rest == StepLine(steps[0]) + "\n" + (StepLines(steps[1..]) + rest);
      ReadStep(f, steps[0], StepLines(steps[1..]) + rest);
      ReadSteps(f.(steps := f.steps + [steps[0]]), steps[1..], rest);
      assert f.steps + [steps[0]] + steps[1..] == f.steps + steps;
    }
  }

  lemma {:induction false} ReadPlain(f: Fields, rest: string)
    ensures ReadText(f, "CHAINLITE-PROOF v1" + "\n" + rest) == ReadText(f, rest)
    ensures ReadText(f, "end" + "\n") == f
  {
    hide StrToULL, Unhex;
    ReadPrinted(f, "CHAINLITE-PROOF v1", rest);
    ReadPrinted(f, "end", "");
    assert "end" + "\n" + "" == "end" + "\n";
  }

  /** The verifier reads back exactly the fields that were printed. */
  lemma {:induction false} PrintedReadsBack(d: Doc)
    requires |d.header| == HEADER_SIZE
    ensures ReadText(NoFields(), Print(d)) ==
            Fields(Some(d.txid), d.height, Some(d.blockHash), Some(d.header), d.steps)
  {
    hide ReadText, StepLines, Dec, Hex;
    var l7 := "end" + "\n";
    var l6 := StepLines(d.steps) + l7;
    var l5 := "header " + Hex(d.header) + "\n" + l6;
    var l4 := "blockhash " + Hex(d.blockHash) + "\n" + l5;
    var l3 := "index " + Dec(d.index) + "\n" + l4;
    var l2 := "height " + Dec(d.height) + "\n" + l3;
    var l1 := "txid " + Hex(d.txid) + "\n" + l2;
    assert Print(d) == "CHAINLITE-PROOF v1" + "\n" + l1;
    var f0 := NoFields();
    ReadPlain(f0, l1);
    ReadTxid(f0, d.txid, l2);
    var f1 := f0.(txid := Some(d.txid));
    ReadHeight(f1, d.height, l3);
    var f2 := f1.(height := d.height);
    ReadIndex(f2, d.index, l4);
    ReadBlockHash(f2, d.blockHash, l5);
    var f3 := f2.(blockHash := Some(d.blockHash));
    ReadHeaderLine(f3, d.header, l6);
    var f4 := f3.(header := Some(d.header));
    ReadSteps(f4, d.steps, l7);
    assert f4.steps + d.steps == d.steps;
    ReadPlain(f4.(steps := d.steps), "");
  }

  // ---------- prove, then verify ----------

  function DocFor(n: Net, blocks: seq<Block>, h: nat, i: nat): Doc
    requires h < |blocks| && i < |blocks[h].txs|
  {
    var b := blocks[h];
    Doc(TxId(n, b.txs[i]), b.h.height, i % U32, HeaderHash(n, b.h), SerHeader(b.h), Proof(n, TxIds(n, b.txs), i))
  }

  /** The proof of any transaction of a block other than the genesis passes every check. */
  lemma {:induction false} DocVerifies(n: Net, blocks: seq<Block>, h: nat, i: nat)
    requires ValidChain(n, blocks) && 0 < h < |blocks| && i < |blocks[h].txs|
    requires blocks[h].h.height != U64 - 1
    ensures LocalVerdict(n, ReadText(NoFields(), Print(DocFor(n, blocks, h, i)))) == Valid
  {
    hide ValidChain, ReadText, Print, SerHeader, ParseHeader, Root, Proof, Apply, HeaderHash, PowOk, TxId;
    var d := DocFor(n, blocks, h, i);
    var b := blocks[h];
    HeaderLength(b.h);
    PrintedReadsBack(d);
    HeaderRoundTrip(b.h, []);
    assert SerHeader(b.h) + [] == SerHeader(b.h);
    ProofReachesRoot(n, TxIds(n, b.txs), i);
    ExtendsHeader(n, blocks, h);
    HashOfHeader(n, b.h);
  }

  lemma {:induction false} HashOfHeader(n: Net, h: BlockHeader)
    ensures n.hash(SerHeader(h)) == HeaderHash(n, h)
  {
  }

  /** For every id in the index of a valid chain, `/prove` finds a transaction with that id
      and its printed proof verifies. */
  lemma {:induction false} ProvedVerifies(n: Net, blocks: seq<Block>, id: H256)
    requires ValidChain(n, blocks) && GenesisExact(n, blocks) && |blocks| <= U32
    requires id in IndexOf(n, blocks)
    ensures var (h, i) := IndexOf(n, blocks)[id];
            && h < |blocks| && i < |blocks[h].txs| && DocFor(n, blocks, h, i).txid == id
            && DocFor(n, blocks, h, i).height == h && DocFor(n, blocks, h, i).index == i
            && LocalVerdict(n, ReadText(NoFields(), Print(DocFor(n, blocks, h, i)))) == Valid
  {
    hide ValidChain, IndexOf, ReadText, Print, LocalVerdict, TxId, HeaderHash, SerHeader, Proof;
    var h, i := IndexSound(n, blocks, id);
    HeightsRun(n, blocks, h);
    SmallBlock(n, blocks, h);
    DocVerifies(n, blocks, h, i);
  }

  /** The path of a verified text that names a block of the chain leads to the root of that
      block's transaction ids. */
  lemma {:induction false} VerifiedPath(n: Net, blocks: seq<Block>, f: Fields, h: nat, s: set<Bytes>)
    requires ValidChain(n, blocks) && FitsMemory(blocks) && 0 < h < |blocks|
    requires LocalVerdict(n, f) == Valid && f.blockHash.value == HeaderHash(n, blocks[h].h)
    requires ChainPre(n, blocks) <= s && f.header.value in s && NoCollision(n.hash, s)
    ensures var ids := TxIds(n, blocks[h].txs);
            && ids != [] && Apply(n, f.txid.value, f.steps) == Root(n, ids)
            && Genuine(n, ids, s) && Covers(n, ids, s)
            && f.height == blocks[h].h.height
  {
    hide ValidChain, FitsMemory, NoCollision, ChainPre, HeaderHash, SerHeader, ParseHeader, Apply, Root, Genuine,
         Distinct, Covers, TxIds, Holds;
    ChainPreHolds(n, blocks, s);
    HoldsAt(n, blocks, s, h);
    HashOfHeader(n, blocks[h].h);
    Same(n.hash, s, f.header.value, SerHeader(blocks[h].h));
    HeaderRoundTrip(blocks[h].h, []);
    assert SerHeader(blocks[h].h) + [] == SerHeader(blocks[h].h);
    ExtendsHeader(n, blocks, h);
    BlockIds(n, blocks, s, h);
    IdsNonempty(n, blocks[h].txs);
  }

  /** What a verified text proves.  It commits the named block to the named id exactly when
      the block is not the genesis and the text has as many steps as the block's tree is
      deep: the verifier knows neither, and a text with fewer steps names an inner node of
      the tree.  This holds unless two of the strings hashed by the chain, the header and
      the path collide. */
  lemma {:induction false} VerifiedIsCommitted(n: Net, blocks: seq<Block>, text: string, h: nat)
    requires ValidChain(n, blocks) && FitsMemory(blocks) && h < |blocks|
    requires var f := ReadText(NoFields(), text);
             && LocalVerdict(n, f) == Valid
             && f.blockHash.value == HeaderHash(n, blocks[h].h)
             && NoCollision(n.hash, ChainPre(n, blocks) + {f.header.value} + PathPre(n, f.txid.value, f.steps))
    ensures var f, txs := ReadText(NoFields(), text), blocks[h].txs;
            && (f.txid.value in TxIds(n, txs) <==> h > 0 && |f.steps| == Depth(|txs|))
            && (h > 0 ==> |f.steps| <= Depth(|txs|) && f.height == blocks[h].h.height)
  {
    hide ValidChain, FitsMemory, NoCollision, ChainPre, ReadText, HeaderHash, ParseHeader, PathPre, Apply, Root,
         Genuine, Covers, Depth;
    var f := ReadText(NoFields(), text);
    var s := ChainPre(n, blocks) + {f.header.value} + PathPre(n, f.txid.value, f.steps);
    if h == 0 {
      ExtendsRun(n, blocks, 0);
      NoIds(n);
    } else {
      VerifiedPath(n, blocks, f, h, s);
      PathLength(n, TxIds(n, blocks[h].txs), f.txid.value, f.steps, s);
    }
  }

  lemma {:induction false} NoIds(n: Net)
    ensures TxIds(n, []) == []
  {
  }

  /** In particular a verified text about the id of a transaction - or of anything that is not
      64 bytes long - proves that the block holds it. */
  lemma {:induction false} VerifiedTxIsCommitted(n: Net, blocks: seq<Block>, text: string, h: nat, p: Bytes)
    requires ValidChain(n, blocks) && FitsMemory(blocks) && 0 < h < |blocks|
    requires var f := ReadText(NoFields(), text);
             && LocalVerdict(n, f) == Valid
             && f.blockHash.value == HeaderHash(n, blocks[h].h)
             && f.txid.value == n.hash(p) && |p| != 64
             && NoCollision(n.hash, ChainPre(n, blocks) + {f.header.value, p} + PathPre(n, f.txid.value, f.steps))
    ensures n.hash(p) in TxIds(n, blocks[h].txs)
  {
    hide ValidChain, FitsMemory, NoCollision, ChainPre, ReadText, HeaderHash, ParseHeader, PathPre, Apply, Root,
         Genuine, Covers, TxIds;
    var f := ReadText(NoFields(), text);
    var s := ChainPre(n, blocks) + {f.header.value, p} + PathPre(n, f.txid.value, f.steps);
    VerifiedPath(n, blocks, f, h, s);
    ProofSound(n, TxIds(n, blocks[h].txs), p, f.steps, s);
  }

  /** A text that verifies and proves nothing: the zero id, in the genesis. */
  function GenesisText(n: Net): string {
    Print(Doc(Zeros(32), 0, 0, HeaderHash(n, Genesis(n).h), SerHeader(Genesis(n).h), []))
  }

  lemma {:induction false} GenesisTextVerifies(n: Net)
    ensures LocalVerdict(n, ReadText(NoFields(), GenesisText(n))) == Valid
    ensures ReadText(NoFields(), GenesisText(n)).txid == Some(Zeros(32)) && Zeros(32) !in TxIds(n, Genesis(n).txs)
  {
    hide ReadText, Print, SerHeader, ParseHeader, HeaderHash;
    var h := Genesis(n).h;
    HeaderLength(h);
    PrintedReadsBack(Doc(Zeros(32), 0, 0, HeaderHash(n, h), SerHeader(h), []));
    HeaderRoundTrip(h, []);
    assert SerHeader(h) + [] == SerHeader(h);
    HashOfHeader(n, h);
    ApplyNothing(n, Zeros(32));
  }

  /** A text that verifies and names the Merkle root of a block as its transaction. */
  function RootText(n: Net, b: Block): string {
    Print(Doc(b.h.merkle, b.h.height, 0, HeaderHash(n, b.h), SerHeader(b.h), []))
  }

  lemma {:induction false} RootTextVerifies(n: Net, blocks: seq<Block>, k: nat)
    requires ValidChain(n, blocks) && 0 < k < |blocks| && blocks[k].h.height != U64 - 1
    ensures LocalVerdict(n, ReadText(NoFields(), RootText(n, blocks[k]))) == Valid
    ensures ReadText(NoFields(), RootText(n, blocks[k])).txid == Some(blocks[k].h.merkle)
    ensures FitsMemory(blocks) && NoCollision(n.hash, ChainPre(n, blocks)) && |blocks[k].txs| > 1 ==>
              blocks[k].h.merkle !in TxIds(n, blocks[k].txs)
  {
    hide ValidChain, ReadText, Print, SerHeader, ParseHeader, HeaderHash, PowOk, Root, FitsMemory, NoCollision,
         ChainPre, TxIds, PathPre, Holds;
    var b := blocks[k];
    HeaderLength(b.h);
    PrintedReadsBack(Doc(b.h.merkle, b.h.height, 0, HeaderHash(n, b.h), SerHeader(b.h), []));
    HeaderRoundTrip(b.h, []);
    assert SerHeader(b.h) + [] == SerHeader(b.h);
    HashOfHeader(n, b.h);
    ApplyNothing(n, b.h.merkle);
    ExtendsHeader(n, blocks, k);
    if FitsMemory(blocks) && NoCollision(n.hash, ChainPre(n, blocks)) && |b.txs| > 1 {
      var s := ChainPre(n, blocks);
      ChainPreHolds(n, blocks, s);
      HoldsAt(n, blocks, s, k);
      NothingWalked(n, b.h.merkle);
      assert s + {SerHeader(b.h)} + PathPre(n, b.h.merkle, []) == s;
      VerifiedIsCommitted(n, blocks, RootText(n, b), k);
    }
  }

  lemma {:induction false} NothingWalked(n: Net, x: H256)
    ensures PathPre(n, x, []) == {}
  {
  }

  lemma {:induction false} IdsNonempty(n: Net, txs: seq<Tx>)
    requires txs != []
    ensures TxIds(n, txs) != []
  {
  }

  // ---------- the source's loops ----------

  method HexString(b: Bytes) returns (s: string)
    ensures s == Hex(b)
  {
    hide HexDigit;
    s := "";
    for i := 0 to |b|
      invariant s == Hex(b[..i])
    {
      assert b[..i + 1][..i] == b[..i];
      s := s + [HexDigit(b[i] / 16)];
      s := s + [HexDigit(b[i] % 16)];
    }
    assert b[..|b|] == b;
  }

  lemma {:induction false} UnhexFails(s: string, i: nat)
    requires i % 2 == 0 && i <= |s| && |s| % 2 == 0 && Unhex(s[..i]).None?
    ensures Unhex(s).None?
    decreases |s|
  {
    hide HexVal;
    if i < |s| {
      assert s[..|s| - 2][..i] == s[..i];
      UnhexFails(s[..|s| - 2], i);
    } else {
      assert s[..i] == s;
    }
  }

  method UnhexString(s: string) returns (b: Option<Bytes>)
    ensures b == Unhex(s)
  {
    hide HexVal;
    if |s| % 2 != 0 { return None; }
    var bytes: Bytes := [];
    var i := 0;
    while i < |s|
      invariant 0 <= i <= |s| && i % 2 == 0
      invariant Unhex(s[..i]) == Some(bytes)
    {
      var h, l := HexVal(s[i]), HexVal(s[i + 1]);
      assert s[..i + 2][..i] == s[..i];
      if h < 0 || l < 0 {
        UnhexFails(s, i + 2);
        return None;
      }
      bytes := bytes + [16 * h + l];
      i := i + 2;
    }
    assert s[..|s|] == s;
    b := Some(bytes);
  }

  method Unhex32String(s: string) returns (v: Option<H256>)
    ensures v == Unhex32(s)
  {
    var b := UnhexString(s);
    v := if b.Some? && |b.value| == 32 then Some(b.value) else None;
  }

  lemma {:induction false} StepLinesSnoc(steps: seq<Step>, i: nat)
    requires i < |steps|
    ensures StepLines(steps[..i + 1]) == StepLines(steps[..i]) + StepLine(steps[i]) + "\n"
    decreases i
  {
    hide StepLine;
    if i == 0 {
      assert steps[..1][1..] == [] && steps[..0] == [];
    } else {
      StepLinesSnoc(steps[1..], i - 1);
      assert steps[..i + 1][1..] == steps[1..][..i] && steps[..i][1..] == steps[1..][..i - 1];
    }
  }

  lemma {:induction false} Onto(out: string, tag: string, body: string, rest: string)
    ensures out + (tag + body + "\n" + rest) == (out + tag + body + "\n") + rest
  {
  }

  method PrintDoc(d: Doc) returns (out: string)
    ensures out == Print(d)
  {
    hide Dec, Hex, StepLine, StepLines;
    ghost var l6 := StepLines(d.steps) + ("end" + "\n");
    ghost var l5 := "header " + Hex(d.header) + "\n" + l6;
    ghost var l4 := "blockhash " + Hex(d.blockHash) + "\n" + l5;
    ghost var l3 := "index " + Dec(d.index) + "\n" + l4;
    ghost var l2 := "height " + Dec(d.height) + "\n" + l3;
    out := "CHAINLITE-PROOF v1" + "\n";
    var x := HexString(d.txid);
    Onto(out, "txid ", x, l2);
    out := out + "txid " + x + "\n";
    Onto(out, "height ", Dec(d.height), l3);
    out := out + "height " + Dec(d.height) + "\n";
    Onto(out, "index ", Dec(d.index), l4);
    out := out + "index " + Dec(d.index) + "\n";
    var y := HexString(d.blockHash);
    Onto(out, "blockhash ", y, l5);
    out := out + "blockhash " + y + "\n";
    var z := HexString(d.header);
    Onto(out, "header ", z, l6);
    out := out + "header " + z + "\n";
    assert Print(d) == out + l6;
    out := PrintSteps(out, d.steps);
    out := out + ("end" + "\n");
  }

  method PrintSteps(front: string, steps: seq<Step>) returns (out: string)
    ensures out == front + StepLines(steps)
  {
    hide Hex, StepLine;
    out := front;
    for i := 0 to |steps|
      invariant out == front + StepLines(steps[..i])
    {
      StepLinesSnoc(steps, i);
      var s := steps[i];
      var w := HexString(s.h);
      StepLineIs(s);
      out := out + ("sibling " + (if s.left then "L" else "R") + " " + w) + "\n";
    }
    assert steps[..|steps|] == steps;
  }

  lemma {:induction false} StepLineIs(s: Step)
    ensures StepLine(s) == "sibling " + (if s.left then "L" else "R") + " " + Hex(s.h)
  {
  }

  /** The text for transaction i of block h, in the name of `id`. */
  method ProofFor(c: Chain, id: H256, h: nat, i: nat) returns (text: string)
    requires h < |c.blocks| && i < |c.blocks[h].txs|
    ensures text == Print(DocFor(c.n, c.blocks, h, i).(txid := id))
    ensures ReadText(NoFields(), text).txid == Some(id)
  {
    hide ReadText, Print, TxId, HeaderHash, SerHeader, Proof;
    var b := c.blocks[h];
    var leaves := HashTxs(c.n, b.txs);
    var steps := MerkleProof(c.n, leaves, i);
    var blockHash := HashHeader(c.n, b.h);
    var w := new Writer();
    WriteHeader(w, b.h);
    assert [] + SerHeader(b.h) == SerHeader(b.h);
    var d := Doc(id, b.h.height, i % U32, blockHash, w.b, steps);
    HeaderLength(b.h);
    PrintedReadsBack(d);
    text := PrintDoc(d);
  }

  /** What `/prove` comes to.  The source does not test the position it has looked up:
      `OutOfRange` stands for reading past the end of the chain or of a block. */
  datatype Answer = Unconfirmed | OutOfRange | Proved(text: string)

  /** `/prove`: a text for exactly the ids on the chain; one that carries the id and verifies,
      whenever the stored position is right - so always, on a chain that starts from the
      genesis itself and has at most 2^32 blocks. */
  method Prove(c: Chain, id: H256) returns (out: Answer)
    requires c.Valid()
    ensures out.Unconfirmed? <==> id !in c.txidx
    ensures out.Unconfirmed? <==> forall h: nat, i: nat :: !IdAt(c.n, c.blocks, id, h, i)
    ensures id in c.txidx ==>
              var (h, i) := c.txidx[id];
              if h < |c.blocks| && i < |c.blocks[h].txs| then
                out == Proved(Print(DocFor(c.n, c.blocks, h, i).(txid := id)))
              else out.OutOfRange?
    ensures id in c.txidx && Resolves(c.n, c.blocks, id) ==>
              var (h, i) := c.txidx[id];
              && out.Proved? && ReadText(NoFields(), out.text).txid == Some(id)
              && (h > 0 && c.blocks[h].h.height != U64 - 1 ==>
                  LocalVerdict(c.n, ReadText(NoFields(), out.text)) == Valid)
    ensures id in c.txidx && GenesisExact(c.n, c.blocks) && |c.blocks| <= U32 ==>
              && out.Proved? && ReadText(NoFields(), out.text).txid == Some(id)
              && LocalVerdict(c.n, ReadText(NoFields(), out.text)) == Valid
  {
    hide ValidChain, GenesisExact, IndexOf, ReadText, Print, LocalVerdict, TxId, HeaderHash, SerHeader, Proof,
         StateOf, Work, Hashes;
    if id !in c.txidx {
      forall h: nat, i: nat
        ensures !IdAt(c.n, c.blocks, id, h, i)
      {
        if IdAt(c.n, c.blocks, id, h, i) {
          IndexHasAll(c.n, c.blocks, h, i);
        }
      }
      return Unconfirmed;
    }
    ghost var g, j := IndexSound(c.n, c.blocks, id);
    assert IdAt(c.n, c.blocks, id, g, j);
    if GenesisExact(c.n, c.blocks) && |c.blocks| <= U32 {
      ProvedVerifies(c.n, c.blocks, id);
    }
    var (h, i) := c.txidx[id];
    if h >= |c.blocks| || i >= |c.blocks[h].txs| {
      return OutOfRange;
    }
    if Resolves(c.n, c.blocks, id) && h > 0 && c.blocks[h].h.height != U64 - 1 {
      DocVerifies(c.n, c.blocks, h, i);
    }
    var text := ProofFor(c, id, h, i);
    out := Proved(text);
  }

  /** The text scanner of `cmd_verify`, one line per turn, and its checks. */
  method VerifyText(n: Net, content: string) returns (v: Verification)
    ensures v == LocalVerdict(n, ReadText(NoFields(), content))
  {
    var f := ScanText(content);
    if !Complete(f) { return Malformed; }
    Finish(n, f);
    var r := new Reader(f.header.value);
    assert r.Rest() == f.header.value;
    var parsed := ReadHeader(r);
    var h := parsed.value;
    var pass := true;
    var hh := n.hash(f.header.value);
    if hh != f.blockHash.value { pass := false; }
    if h.height != f.height { pass := false; }
    var root := MerkleApply(n, f.txid.value, f.steps);
    if root != h.merkle { pass := false; }
    var zeros := LeadingZeroBits(f.blockHash.value);
    if f.height > 0 && zeros < h.bits { pass := false; }
    v := if pass then Valid else Failed;
  }

  lemma {:induction false} Finish(n: Net, f: Fields)
    requires Complete(f)
    ensures ParseHeader(f.header.value).Some?
  {
    HeaderAccepts(f.header.value);
  }

  /** The end of the line that starts at `pos`. */
  method FindBreak(content: string, pos: nat) returns (e: nat)
    requires pos <= |content|
    ensures e == pos + LineEnd(content[pos..])
  {
    e := pos;
    while e < |content| && content[e] != '\n'
      invariant pos <= e <= |content|
      invariant LineEnd(content[pos..]) == e - pos + LineEnd(content[e..])
    {
      assert content[e..][1..] == content[e + 1..];
      e := e + 1;
    }
  }

  method StripLine(raw: string) returns (line: string)
    ensures line == Strip(raw)
  {
    line := raw;
    while line != "" && (line[|line| - 1] == '\r' || line[|line| - 1] == ' ')
      invariant Strip(line) == Strip(raw)
      decreases |line|
    {
      line := line[..|line| - 1];
    }
  }

  method ScanText(content: string) returns (f: Fields)
    ensures f == ReadText(NoFields(), content)
  {
    hide ReadLine, Strip;
    f := NoFields();
    var pos := 0;
    assert content[0..] == content;
    while pos < |content|
      invariant 0 <= pos <= |content|
      invariant ReadText(f, content[pos..]) == ReadText(NoFields(), content)
    {
      var e := FindBreak(content, pos);
      var line := StripLine(content[pos..e]);
      assert content[pos..][..e - pos] == content[pos..e];
      if e < |content| {
        assert content[pos..][e - pos + 1..] == content[e + 1..];
      }
      f := TakeLine(f, line);
      pos := if e < |content| then e + 1 else e;
    }
  }

  method TakeLine(f: Fields, line: string) returns (g: Fields)
    ensures g == ReadLine(f, line)
  {
    hide Unhex, StrToULL;
    g := f;
    if StartsWith(line, "txid ") {
      var v := Unhex32String(line[5..]);
      if v.Some? { g := g.(txid := v); }
    } else if StartsWith(line, "height ") {
      g := g.(height := StrToULL(line[7..]));
    } else if StartsWith(line, "blockhash ") {
      var v := Unhex32String(line[10..]);
      if v.Some? { g := g.(blockHash := v); }
    } else if StartsWith(line, "header ") {
      var v := UnhexString(line[7..]);
      if v.Some? && |v.value| == HEADER_SIZE { g := g.(header := v); }
    } else if StartsWith(line, "sibling ") && |line| > 10 {
      var left := line[8] == 'L';
      var v := Unhex32String(line[10..]);
      if v.Some? { g := g.(steps := g.steps + [Step(v.value, left)]); }
    }
  }
}
