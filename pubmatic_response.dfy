/** How the PubMatic adapter (src/adapters/pubmatic.js) reads the answer of
    its legacy ad call in `handlePubmaticCallback`: the per-slot info string
    (`bidstatus=1;bid=5.0000;bidid=id@WxH;wdeal=`), its DFP form with ';' in
    place of '=', and the bid or no-bid each request then receives. */
module PubmaticResponse {
  import opened JsValues
  import opened Strings

  // ---------------------------------------------------------------- DFP form

  /** `[a-z]` under the `i` flag: the ASCII letters of either case. */
  predicate IsAsciiLetter(c: char)
  {
    'a' <= c <= 'z' || 'A' <= c <= 'Z'
  }

  /** The characters `.` does not match. */
  predicate IsLineTerminator(c: char)
  {
    c == '\n' || c == '\r' || c == '\U{2028}' || c == '\U{2029}'
  }

  /** The length of the run of letters at the start of `t`. */
  function LetterRun(t: string): (k: nat)
    ensures k <= |t|
  {
    if t != [] && IsAsciiLetter(t[0]) then 1 + LetterRun(t[1..]) else 0
  }

  /** The length of the run of characters other than ';' at the start of `t`. */
  function FieldRun(t: string): (k: nat)
    ensures k <= |t|
  {
    if t != [] && t[0] != ';' then 1 + FieldRun(t[1..]) else 0
  }

  /** Whether `/([a-z]+);(.[^;]*)/i` matches at the start of `t`: a letter
      run, then ';', then one character that is not a line terminator. The
      greedy letter run is the only one that can be followed by ';'. The
      pattern has no anchor, so where it matches depends only on the text
      from the position tried onwards. */
  predicate MatchAt(t: string): (m: bool)
    ensures m ==> 3 <= |t| && ';' in t
  {
    var k := LetterRun(t);
    k > 0 && k + 1 < |t| && t[k] == ';' && !IsLineTerminator(t[k + 1])
  }

  /** Where a match at the start of `t` ends: after the second group, which
      runs up to the next ';' following its first character. */
  function MatchEnd(t: string): (e: nat)
    requires MatchAt(t)
    ensures LetterRun(t) + 2 <= e <= |t|
  {
    var k := LetterRun(t);
    k + 2 + FieldRun(t[k + 2..])
  }

  /** One step of the global replacement `'$1=$2'` at the start of `t`: a
      match has its ';' turned into '=' and the search resumes after it;
      otherwise one character is copied. Returns the output and the length
      consumed. */
  function Step(t: string): (out: (string, nat))
    requires t != []
    ensures 0 < out.1 <= |t| && |out.0| == out.1
  {
    if MatchAt(t) then
      var k := LetterRun(t);
      var e := MatchEnd(t);
      (t[..k] + "=" + t[k + 1..e], e)
    else ([t[0]], 1)
  }

  /** `replace(/([a-z]+);(.[^;]*)/ig, '$1=$2')`. */
  function DfpRewrite(t: string): (r: string)
    ensures |r| == |t|
    decreases |t|
  {
    if t == [] then "" else Step(t).0 + DfpRewrite(t[Step(t).1..])
  }

  lemma StepChars(t: string)
    requires t != []
    ensures forall j :: 0 <= j < |Step(t).0| ==> Step(t).0[j] == t[j] || (t[j] == ';' && Step(t).0[j] == '=')
  {
    if MatchAt(t) {
      var k := LetterRun(t);
      var e := MatchEnd(t);
      var r := t[..k] + "=" + t[k + 1..e];
      assert forall j :: 0 <= j < k ==> r[j] == t[j];
      assert forall j :: k < j < e ==> r[j] == t[j];
    }
  }

  /** The rewrite keeps the length and changes characters only by turning
      ';' into '='. */
  lemma {:induction false} DfpRewriteChars(t: string)
    ensures |DfpRewrite(t)| == |t|
    ensures forall j :: 0 <= j < |t| ==> DfpRewrite(t)[j] == t[j] || (t[j] == ';' && DfpRewrite(t)[j] == '=')
    decreases |t|
  {
    if t != [] {
      var (piece, n) := Step(t);
      StepChars(t);
      DfpRewriteChars(t[n..]);
      var rest := DfpRewrite(t[n..]);
      var r := DfpRewrite(t);
      RewriteUnfold(t);
      forall j | 0 <= j < |t| ensures r[j] == t[j] || (t[j] == ';' && r[j] == '=') {
        if j < n {
          assert r[j] == piece[j];
        } else {
          assert r[j] == rest[j - n] && t[n..][j - n] == t[j];
        }
      }
    }
  }

  lemma {:induction false} LetterRunOf(t: string, n: nat)
    requires n <= |t|
    requires forall j :: 0 <= j < n ==> IsAsciiLetter(t[j])
    requires n < |t| ==> !IsAsciiLetter(t[n])
    ensures LetterRun(t) == n
  {
    if n > 0 {
      LetterRunOf(t[1..], n - 1);
    }
  }

  lemma {:induction false} FieldRunOf(t: string, n: nat)
    requires n <= |t|
    requires forall j :: 0 <= j < n ==> t[j] != ';'
    requires n < |t| ==> t[n] == ';'
    ensures FieldRun(t) == n
  {
    if n > 0 {
      FieldRunOf(t[1..], n - 1);
    }
  }

  /** The match of a DFP pair at the start of a text: a letter key, ';', and
      a value running up to the next ';' or the end. */
  lemma PairStep(key: string, value: string, rest: string)
    requires |key| > 0 && forall j :: 0 <= j < |key| ==> IsAsciiLetter(key[j])
    requires |value| > 0 && !IsLineTerminator(value[0]) && ';' !in value
    requires rest == [] || rest[0] == ';'
    ensures Step(key + ";" + value + rest) == (key + "=" + value, |key| + 1 + |value|)
  {
    var t := key + ";" + value + rest;
    var e := |key| + 1 + |value|;
    LetterRunOf(t, |key|);
    assert t[|key| + 2..][..|value| - 1] == value[1..];
    FieldRunOf(t[|key| + 2..], |value| - 1);
    assert t[..|key|] == key;
    assert t[|key| + 1..e] == value;
  }

  /** A pair alone is rewritten into `key=value`. */
  lemma DfpPair(key: string, value: string)
    requires |key| > 0 && forall j :: 0 <= j < |key| ==> IsAsciiLetter(key[j])
    requires |value| > 0 && !IsLineTerminator(value[0]) && ';' !in value
    ensures DfpRewrite(key + ";" + value) == key + "=" + value
  {
    var t := key + ";" + value;
    PairStep(key, value, "");
    assert t + "" == t;
    assert t[|t|..] == [];
  }

  /** A DFP pair followed by ';' and more text: the pair is rewritten, the
      ';' kept, and the rest rewritten on its own. */
  lemma DfpPairThen(key: string, value: string, rest: string)
    requires |key| > 0 && forall j :: 0 <= j < |key| ==> IsAsciiLetter(key[j])
    requires |value| > 0 && !IsLineTerminator(value[0]) && ';' !in value
    ensures DfpRewrite(key + ";" + value + ";" + rest) == key + "=" + value + ";" + DfpRewrite(rest)
  {
    var tail := ";" + rest;
    var t := key + ";" + value + tail;
    assert key + ";" + value + ";" + rest == t;
    assert DfpRewrite(t) == key + "=" + value + DfpRewrite(tail) by {
      PairStep(key, value, tail);
      RewriteUnfold(t);
      assert t[|key| + 1 + |value|..] == tail;
    }
    assert DfpRewrite(tail) == ";" + DfpRewrite(rest) by {
      assert LetterRun(tail) == 0;
      assert Step(tail) == (";", 1);
      RewriteUnfold(tail);
      assert tail[1..] == rest;
    }
  }

  lemma RewriteUnfold(t: string)
    requires t != []
    ensures DfpRewrite(t) == Step(t).0 + DfpRewrite(t[Step(t).1..])
  {
  }

  /** A well-formed DFP pair: a letter key, and a value that is not empty,
      does not start with a line terminator and holds no ';'. */
  predicate DfpReady(pair: (string, string))
  {
    && |pair.0| > 0 && (forall j :: 0 <= j < |pair.0| ==> IsAsciiLetter(pair.0[j]))
    && |pair.1| > 0 && !IsLineTerminator(pair.1[0]) && ';' !in pair.1
  }

  /** Each pair as `key` + `sep` + `value`: ';' for the DFP form, '=' for
      the standard form. */
  function PairPieces(pairs: seq<(string, string)>, sep: string): (r: seq<string>)
    ensures |r| == |pairs|
  {
    if pairs == [] then [] else [pairs[0].0 + sep + pairs[0].1] + PairPieces(pairs[1..], sep)
  }

  /** The DFP form `k1;v1;k2;v2;...` of well-formed pairs is rewritten into
      the standard form `k1=v1;k2=v2;...`, the form the parser reads. An empty
      value does not qualify: `.` then takes the following ';'. */
  lemma {:induction false} DfpFormRewritten(pairs: seq<(string, string)>)
    requires forall i :: 0 <= i < |pairs| ==> DfpReady(pairs[i])
    ensures DfpRewrite(Join(PairPieces(pairs, ";"), ";")) == Join(PairPieces(pairs, "="), ";")
  {
    if |pairs| == 1 {
      DfpPair(pairs[0].0, pairs[0].1);
    } else if |pairs| > 1 {
      var tail := pairs[1..];
      assert PairPieces(pairs, ";")[1..] == PairPieces(tail, ";");
      assert PairPieces(pairs, "=")[1..] == PairPieces(tail, "=");
      DfpFormRewritten(tail);
      DfpPairThen(pairs[0].0, pairs[0].1, Join(PairPieces(tail, ";"), ";"));
      assert Join(PairPieces(pairs, ";"), ";") == pairs[0].0 + ";" + pairs[0].1 + ";" + Join(PairPieces(tail, ";"), ";");
    }
  }

  /** A text without '=' that the rewrite leaves without '=' is unchanged. */
  lemma RewriteWithoutEquals(s: string)
    requires '=' !in s && '=' !in DfpRewrite(s)
    ensures DfpRewrite(s) == s
  {
    var r := DfpRewrite(s);
    DfpRewriteChars(s);
    forall j | 0 <= j < |s| ensures r[j] == s[j] {
      assert r[j] in r;
    }
  }

  /** The adapter's normalisation of an info string: a non-empty string
      without '=' is taken to be in the DFP form and rewritten. */
  function PrepareInfo(s: string): (r: string)
    ensures |r| == |s|
    ensures forall j :: 0 <= j < |s| ==> r[j] == s[j] || (s[j] == ';' && r[j] == '=')
  {
    if s != "" && '=' !in s then
      DfpRewriteChars(s);
      DfpRewrite(s)
    else s
  }

  /** Normalising twice is normalising once, so writing the normalised string
      back into `progKeyValueMap` does not change what a later bid for the same
      slot reads. */
  lemma PrepareInfoIdempotent(s: string)
    ensures PrepareInfo(PrepareInfo(s)) == PrepareInfo(s)
  {
    if s != "" && '=' !in s {
      var t := DfpRewrite(s);
      assert |t| > 0;
      if '=' !in t {
        RewriteWithoutEquals(s);
      }
    }
  }

  // ---------------------------------------------------------------- slot info

  /** `adUnitInfo`: what the `reduce` stores under each key; `None` stands
      for `undefined`, stored when a piece has no '='. */
  type SlotInfo = map<string, Option<string>>

  function PieceKey(piece: string): string
  {
    Split(piece, '=')[0]
  }

  function PieceValue(piece: string): Option<string>
  {
    var parts := Split(piece, '=');
    if |parts| > 1 then Some(parts[1]) else None
  }

  /** The `reduce` over the ';'-separated pieces:
      `result[parts[0]] = parts[1]`. */
  function FoldPieces(pieces: seq<string>): (info: SlotInfo)
    ensures forall i :: 0 <= i < |pieces| ==> PieceKey(pieces[i]) in info
  {
    if pieces == [] then map[]
    else FoldPieces(pieces[..|pieces| - 1])[PieceKey(pieces[|pieces| - 1]) := PieceValue(pieces[|pieces| - 1])]
  }

  /** `(s || '').split(';').reduce(...)`: every ';'-separated piece of `s`
      contributes its key. */
  function ParseSlotInfo(s: string): (info: SlotInfo)
    ensures forall i :: 0 <= i < |Split(s, ';')| ==> PieceKey(Split(s, ';')[i]) in info
  {
    FoldPieces(Split(s, ';'))
  }

  /** The keys of the parsed info are exactly the keys of the pieces. */
  lemma {:induction false} FoldPiecesKeys(pieces: seq<string>)
    ensures forall i :: 0 <= i < |pieces| ==> PieceKey(pieces[i]) in FoldPieces(pieces)
    ensures forall k :: k in FoldPieces(pieces) ==> exists i :: 0 <= i < |pieces| && PieceKey(pieces[i]) == k
  {
    if pieces != [] {
      var n := |pieces| - 1;
      var init := pieces[..n];
      FoldPiecesKeys(init);
      forall i | 0 <= i < n ensures PieceKey(pieces[i]) in FoldPieces(pieces) {
        assert init[i] == pieces[i];
      }
      forall k | k in FoldPieces(pieces) ensures exists i :: 0 <= i < |pieces| && PieceKey(pieces[i]) == k {
        if k != PieceKey(pieces[n]) {
          assert k in FoldPieces(init);
          var i :| 0 <= i < |init| && PieceKey(init[i]) == k;
          assert pieces[i] == init[i];
        }
      }
    }
  }

  /** Each key holds the value of the last piece with that key. */
  lemma {:induction false} FoldPiecesLastWins(pieces: seq<string>, i: nat)
    requires i < |pieces|
    requires forall j :: i < j < |pieces| ==> PieceKey(pieces[j]) != PieceKey(pieces[i])
    ensures PieceKey(pieces[i]) in FoldPieces(pieces)
    ensures FoldPieces(pieces)[PieceKey(pieces[i])] == PieceValue(pieces[i])
  {
    var n := |pieces| - 1;
    if i < n {
      var init := pieces[..n];
      assert init[i] == pieces[i];
      forall j | i < j < |init| ensures PieceKey(init[j]) != PieceKey(init[i]) {
        assert init[j] == pieces[j];
      }
      FoldPiecesLastWins(init, i);
    }
  }

  /** A `key=value` piece with no further '=' gives that key and value. */
  lemma PieceOfPair(key: string, value: string)
    requires '=' !in key && '=' !in value
    ensures PieceKey(key + "=" + value) == key
    ensures PieceValue(key + "=" + value) == Some(value)
  {
    SplitJoin([key, value], '=');
    assert Join([key, value], "=") == key + "=" + value by {
      assert Join([value], "=") == value;
    }
  }

  /** A letter key followed by ';' and nothing else is no match: `.` has no
      character left to take. The text stays as it is. */
  lemma {:induction false} TrailingKeyUnchanged(key: string)
    requires forall j :: 0 <= j < |key| ==> IsAsciiLetter(key[j])
    ensures DfpRewrite(key + ";") == key + ";"
    decreases |key|
  {
    var t := key + ";";
    LetterRunOf(t, |key|);
    assert !MatchAt(t);
    assert Step(t) == ([t[0]], 1);
    RewriteUnfold(t);
    if key != [] {
      assert t[1..] == key[1..] + ";";
      TrailingKeyUnchanged(key[1..]);
      assert [t[0]] + (key[1..] + ";") == t;
    }
  }

  /** Well-formed DFP pairs followed by ';' and more text: the pairs are
      rewritten, and the text after them is rewritten on its own. */
  lemma {:induction false} DfpFormThen(pairs: seq<(string, string)>, rest: string)
    requires |pairs| > 0 && forall i :: 0 <= i < |pairs| ==> DfpReady(pairs[i])
    ensures DfpRewrite(Join(PairPieces(pairs, ";"), ";") + ";" + rest)
      == Join(PairPieces(pairs, "="), ";") + ";" + DfpRewrite(rest)
  {
    var p := pairs[0];
    if |pairs| == 1 {
      DfpPairThen(p.0, p.1, rest);
    } else {
      var tail := pairs[1..];
      assert PairPieces(pairs, ";")[1..] == PairPieces(tail, ";");
      assert PairPieces(pairs, "=")[1..] == PairPieces(tail, "=");
      var dfp := Join(PairPieces(tail, ";"), ";");
      var std := Join(PairPieces(tail, "="), ";");
      var head := p.0 + ";" + p.1 + ";";
      var head' := p.0 + "=" + p.1 + ";";
      assert Join(PairPieces(pairs, ";"), ";") == head + dfp;
      assert Join(PairPieces(pairs, "="), ";") == head' + std;
      DfpFormThen(tail, rest);
      DfpPairThen(p.0, p.1, dfp + ";" + rest);
      Regroup(head, dfp, rest);
      Regroup(head', std, DfpRewrite(rest));
    }
  }

  lemma Regroup(head: string, mid: string, rest: string)
    ensures head + mid + ";" + rest == head + (mid + ";" + rest)
  {
  }

  /** The pairs of the DFP example in the comment at line 220,
      `bidstatus;1;bid;5.0000;bidid;hb_test@468x60;wdeal;`, before its
      trailing `wdeal;`. */
  const ExamplePairs: seq<(string, string)> := [("bidstatus", "1"), ("bid", "5.0000"), ("bidid", "hb_test@468x60")]

  /** The DFP example of line 220: its three pairs are rewritten, but the
      trailing `wdeal;` leaves `.` nothing to take, so it stays as it is. */
  lemma SourceDfpExample(pairs: seq<(string, string)>, last: string)
    requires pairs == ExamplePairs && last == "wdeal"
    ensures DfpRewrite(Join(PairPieces(pairs, ";"), ";") + ";" + (last + ";"))
      == Join(PairPieces(pairs, "="), ";") + ";" + (last + ";")
  {
    ExampleIsWellFormed(pairs, last);
    DfpFormThen(pairs, last + ";");
    TrailingKeyUnchanged(last);
  }

  /** The example's pairs are well-formed and its trailing key is letters. */
  lemma ExampleIsWellFormed(pairs: seq<(string, string)>, last: string)
    requires pairs == ExamplePairs && last == "wdeal"
    ensures |pairs| > 0 && forall i :: 0 <= i < |pairs| ==> DfpReady(pairs[i])
    ensures forall j :: 0 <= j < |last| ==> IsAsciiLetter(last[j])
  {
    assert ';' !in pairs[2].1;
  }

  // ---------------------------------------------------------------- responses

  const BidderCode: string := "pubmatic"

  /** What `bidmanager.addBidResponse` receives for one request: a bid
      (status 1) with the slot, the price text, the dimensions and the deal,
      or a no-bid (status 2). The price is `Number(bid)`; the text is kept. */
  datatype BidResponse =
    | Bid(placementCode: Js, adSlot: Js, cpmText: Option<string>, width: string, height: Option<string>, dealId: Option<string>)
    | NoBid(placementCode: Js)

  function Field(info: SlotInfo, key: string): Option<string>
  {
    if key in info then info[key] else None
  }

  /** A key-value pair of the standard form that the parser reads back: a
      non-empty key, and neither part holding '=' or ';'. */
  predicate StandardReady(pair: (string, string))
  {
    pair.0 != "" && '=' !in pair.0 && '=' !in pair.1 && ';' !in pair.0 && ';' !in pair.1
  }

  lemma PairPiecesAt(pairs: seq<(string, string)>, sep: string, i: nat)
    requires i < |pairs|
    ensures PairPieces(pairs, sep)[i] == pairs[i].0 + sep + pairs[i].1
  {
    if i > 0 {
      PairPiecesAt(pairs[1..], sep, i - 1);
    }
  }

  /** Standard pairs with distinct keys, then a last piece `key` + `end`: the
      pieces the parser splits the text into. */
  lemma StandardPieces(pairs: seq<(string, string)>, last: seq<string>)
    requires |pairs| > 0 && |last| > 0
    requires forall i :: 0 <= i < |pairs| ==> StandardReady(pairs[i])
    requires forall i :: 0 <= i < |last| ==> ';' !in last[i]
    ensures Split(Join(PairPieces(pairs, "="), ";") + ";" + Join(last, ";"), ';') == PairPieces(pairs, "=") + last
    ensures forall i :: 0 <= i < |pairs| ==> PieceKey((PairPieces(pairs, "=") + last)[i]) == pairs[i].0
    ensures forall i :: 0 <= i < |pairs| ==> PieceValue((PairPieces(pairs, "=") + last)[i]) == Some(pairs[i].1)
  {
    var pieces := PairPieces(pairs, "=") + last;
    forall i | 0 <= i < |pairs|
      ensures pieces[i] == pairs[i].0 + "=" + pairs[i].1
      ensures ';' !in pieces[i]
      ensures PieceKey(pieces[i]) == pairs[i].0 && PieceValue(pieces[i]) == Some(pairs[i].1)
    {
      PairPiecesAt(pairs, "=", i);
      PieceOfPair(pairs[i].0, pairs[i].1);
    }
    forall i | 0 <= i < |pieces| ensures ';' !in pieces[i] {
      if i >= |pairs| {
        assert pieces[i] == last[i - |pairs|];
      }
    }
    JoinAppend(PairPieces(pairs, "="), last, ";");
    SplitJoin(pieces, ';');
  }

  /** A last key without '=' parses to `undefined`. The pairs before it
      keep their values. */
  lemma {:induction false} TrailingKeyUndefined(pairs: seq<(string, string)>, key: string)
    requires |pairs| > 0 && forall i :: 0 <= i < |pairs| ==> StandardReady(pairs[i])
    requires forall i, j :: 0 <= i < j < |pairs| ==> pairs[i].0 != pairs[j].0
    requires StandardReady((key, "")) && forall i :: 0 <= i < |pairs| ==> pairs[i].0 != key
    ensures var info := ParseSlotInfo(Join(PairPieces(pairs, "="), ";") + ";" + (key + ";"));
      && Field(info, key) == None
      && forall i :: 0 <= i < |pairs| ==> Field(info, pairs[i].0) == Some(pairs[i].1)
  {
    var n := |pairs|;
    var bare := [key, ""];
    assert Join(bare, ";") == key + ";" + "";
    assert key + ";" + "" == key + ";";
    StandardPieces(pairs, bare);
    var pieces := PairPieces(pairs, "=") + bare;
    SplitOfFree(key, '=');
    assert pieces[n] == key && pieces[n + 1] == "";
    assert PieceKey(pieces[n + 1]) == "";
    FoldPiecesLastWins(pieces, n);
    forall i | 0 <= i < n ensures Field(FoldPieces(pieces), pairs[i].0) == Some(pairs[i].1) {
      FoldPiecesLastWins(pieces, i);
    }
  }

  /** The same last key with '=' and nothing after it parses to the empty
      string. */
  lemma {:induction false} TrailingKeyEmpty(pairs: seq<(string, string)>, key: string)
    requires |pairs| > 0 && forall i :: 0 <= i < |pairs| ==> StandardReady(pairs[i])
    requires StandardReady((key, ""))
    ensures Field(ParseSlotInfo(Join(PairPieces(pairs, "="), ";") + ";" + (key + "=")), key) == Some("")
  {
    var n := |pairs|;
    var eq := [key + "="];
    assert Join(eq, ";") == key + "=";
    StandardPieces(pairs, eq);
    var pieces := PairPieces(pairs, "=") + eq;
    PieceOfPair(key, "");
    assert key + "=" + "" == key + "=";
    assert pieces[n] == key + "=";
    FoldPiecesLastWins(pieces, n);
  }

  /** The example of line 220 after the rewrite: `wdeal` parses to
      `undefined`, where the standard form `wdeal=` gives ''. The other
      fields have their values. */
  lemma SourceDfpExampleParsed(pairs: seq<(string, string)>, last: string)
    requires pairs == ExamplePairs && last == "wdeal"
    ensures var info := ParseSlotInfo(Join(PairPieces(pairs, "="), ";") + ";" + (last + ";"));
      && Field(info, "wdeal") == None && Field(info, "bidstatus") == Some("1")
      && Field(info, "bid") == Some("5.0000") && Field(info, "bidid") == Some("hb_test@468x60")
    ensures Field(ParseSlotInfo(Join(PairPieces(pairs, "="), ";") + ";" + (last + "=")), "wdeal") == Some("")
  {
    ExampleIsStandard(pairs, last);
    TrailingKeyUndefined(pairs, last);
    TrailingKeyEmpty(pairs, last);
    assert pairs[0].0 == "bidstatus" && pairs[1].0 == "bid" && pairs[2].0 == "bidid";
  }

  lemma ExampleIsStandard(pairs: seq<(string, string)>, last: string)
    requires pairs == ExamplePairs && last == "wdeal"
    ensures |pairs| > 0 && forall i :: 0 <= i < |pairs| ==> StandardReady(pairs[i])
    ensures forall i, j :: 0 <= i < j < |pairs| ==> pairs[i].0 != pairs[j].0
    ensures StandardReady((last, "")) && forall i :: 0 <= i < |pairs| ==> pairs[i].0 != last
  {
    assert pairs[0].0[1] == 'i' && pairs[1].0[1] == 'i' && pairs[2].0[3] == 'i';
    assert pairs[0].0[3] == 's' && pairs[1].0 == "bid" && pairs[2].0 == "bidid";
    assert '=' !in pairs[2].1 && ';' !in pairs[2].1;
  }

  /** The response for one request, or `None` where the handler throws on
      its `bidid` (the throws of the ad markup are not modelled). A
      response is always for the request's placement, and only a bid
      (`bidstatus` '1') can throw. */
  function Classify(placementCode: Js, adSlot: Js, info: SlotInfo): (r: Option<BidResponse>)
    ensures r.Some? ==> r.value.placementCode == placementCode
    ensures r.None? ==> Field(info, "bidstatus") == Some("1")
  {
    if Field(info, "bidstatus") != Some("1") then Some(NoBid(placementCode))
    else
      var bidid := Field(info, "bidid");
      if bidid.None? then None
      else
        var at := Split(bidid.value, '@');
        if |at| < 2 then None
        else
          var dims := Split(at[1], 'x');
          Some(Bid(placementCode, adSlot, Field(info, "bid"), dims[0], if |dims| > 1 then Some(dims[1]) else None, Field(info, "wdeal")))
  }

  /** A no-bid exactly when `bidstatus` is not '1'; a bid carries the
      request's placement and slot, the price text and the deal. Of the
      throws this model covers, the handler throws exactly on a bid whose
      `bidid` is missing or has no '@'; the `decodeURIComponent` of the
      tracking URL (line 239), which can also throw, is not modelled. */
  lemma ClassifyCases(placementCode: Js, adSlot: Js, info: SlotInfo)
    ensures Classify(placementCode, adSlot, info) == Some(NoBid(placementCode)) <==> Field(info, "bidstatus") != Some("1")
    ensures var r := Classify(placementCode, adSlot, info);
      r.Some? && r.value.Bid? ==>
        && Field(info, "bidstatus") == Some("1")
        && r.value.placementCode == placementCode && r.value.adSlot == adSlot
        && r.value.cpmText == Field(info, "bid") && r.value.dealId == Field(info, "wdeal")
    ensures Classify(placementCode, adSlot, info).None? <==>
      Field(info, "bidstatus") == Some("1")
      && (Field(info, "bidid").None? || '@' !in Field(info, "bidid").value)
  {
    var bidid := Field(info, "bidid");
    if bidid.Some? {
      SplitHasMany(bidid.value, '@');
    }
  }

  /** `bidid = id@WxH` gives width W and height H. */
  lemma DimensionsOfBidId(info: SlotInfo, placementCode: Js, adSlot: Js, id: string, w: string, h: string)
    requires Field(info, "bidstatus") == Some("1")
    requires Field(info, "bidid") == Some(id + "@" + w + "x" + h)
    requires '@' !in id && '@' !in w && '@' !in h && 'x' !in w && 'x' !in h
    ensures Classify(placementCode, adSlot, info)
      == Some(Bid(placementCode, adSlot, Field(info, "bid"), w, Some(h), Field(info, "wdeal")))
  {
    var dims := w + "x" + h;
    assert '@' !in dims by {
      assert forall j :: 0 <= j < |dims| ==> dims[j] in w || dims[j] == 'x' || dims[j] in h;
    }
    SplitJoin([id, dims], '@');
    assert Join([id, dims], "@") == id + "@" + dims by {
      assert Join([dims], "@") == dims;
    }
    assert id + "@" + w + "x" + h == id + "@" + dims;
    SplitJoin([w, h], 'x');
    assert Join([w, h], "x") == dims by {
      assert Join([h], "x") == h;
    }
  }

  /** The info text the handler parses for a slot key: the normalised string,
      or '' when the slot has none. */
  function InfoText(infoMap: map<string, string>, key: string): (text: string)
    ensures |text| == if key in infoMap then |infoMap[key]| else 0
  {
    if key in infoMap then PrepareInfo(infoMap[key]) else ""
  }

  /** What the handler produces for one `(placementCode, adSlot)` request,
      with its slot looked up in `infoMap` as a property name: a response, or
      `None` where it throws. */
  function Answer(target: (Js, Js), infoMap: map<string, string>): (a: Option<BidResponse>)
    ensures a.Some? ==> a.value.placementCode == target.0
  {
    Classify(target.0, target.1, ParseSlotInfo(InfoText(infoMap, JsToString(target.1))))
  }

  function Answers(targets: seq<(Js, Js)>, infoMap: map<string, string>): (a: seq<Option<BidResponse>>)
    ensures |a| == |targets|
  {
    seq(|targets|, i requires 0 <= i < |targets| => Answer(targets[i], infoMap))
  }

  lemma AnswersAt(targets: seq<(Js, Js)>, infoMap: map<string, string>, i: nat)
    requires i < |targets|
    ensures Answers(targets, infoMap)[i] == Answer(targets[i], infoMap)
  {
  }

  /** The responses reported, one per answer in order up to the first throw,
      and whether it threw. */
  function Collect(answers: seq<Option<BidResponse>>): (out: (seq<BidResponse>, bool))
    ensures |out.0| <= |answers|
  {
    if answers == [] then ([], false)
    else if answers[0].None? then ([], true)
    else
      var rest := Collect(answers[1..]);
      ([answers[0].value] + rest.0, rest.1)
  }

  /** Up to the first throw every answer is reported, in order; with no throw
      all of them are. */
  lemma {:induction false} CollectPrefix(answers: seq<Option<BidResponse>>)
    ensures Collect(answers).1 <==> exists i :: 0 <= i < |answers| && answers[i].None?
    ensures forall i :: 0 <= i < |Collect(answers).0| ==> answers[i] == Some(Collect(answers).0[i])
    ensures !Collect(answers).1 ==> |Collect(answers).0| == |answers|
    ensures Collect(answers).1 ==> answers[|Collect(answers).0|].None?
  {
    if answers != [] && answers[0].Some? {
      CollectPrefix(answers[1..]);
      assert forall i :: 1 <= i < |answers| ==> answers[i] == answers[1..][i - 1];
    }
  }

  /** The handler's loop over the remembered requests. */
  function Responses(targets: seq<(Js, Js)>, infoMap: map<string, string>): (out: (seq<BidResponse>, bool))
    ensures |out.0| <= |targets|
  {
    Collect(Answers(targets, infoMap))
  }

  /** An answer that is a response answers its own request. */
  lemma AnswerCarries(target: (Js, Js), infoMap: map<string, string>)
    ensures Answer(target, infoMap).Some? ==> Answer(target, infoMap).value.placementCode == target.0
    ensures Answer(target, infoMap).Some? && Answer(target, infoMap).value.Bid? ==> Answer(target, infoMap).value.adSlot == target.1
  {
    ClassifyCases(target.0, target.1, ParseSlotInfo(InfoText(infoMap, JsToString(target.1))));
  }

  /** The i-th response answers the i-th request: it carries that request's
      placement code, and a bid also its slot; without a throw every request
      is answered. */
  lemma ResponsesInOrder(targets: seq<(Js, Js)>, infoMap: map<string, string>)
    ensures |Responses(targets, infoMap).0| <= |targets|
    ensures !Responses(targets, infoMap).1 ==> |Responses(targets, infoMap).0| == |targets|
    ensures forall i :: 0 <= i < |Responses(targets, infoMap).0| ==>
      && Responses(targets, infoMap).0[i].placementCode == targets[i].0
      && (Responses(targets, infoMap).0[i].Bid? ==> Responses(targets, infoMap).0[i].adSlot == targets[i].1)
  {
    var answers := Answers(targets, infoMap);
    var out := Collect(answers).0;
    CollectPrefix(answers);
    forall i | 0 <= i < |out|
      ensures out[i].placementCode == targets[i].0
      ensures out[i].Bid? ==> out[i].adSlot == targets[i].1
    {
      AnswerCarries(targets[i], infoMap);
      AnswersAt(targets, infoMap, i);
      assert answers[i] == Some(out[i]);
    }
  }

  /** The handler's loop, one reported answer further: what was collected so
      far gains that answer's response. */
  lemma CollectAdvance(answers: seq<Option<BidResponse>>, i: nat, added: seq<BidResponse>)
    requires i < |answers| && answers[i].Some?
    requires Collect(answers) == (added + Collect(answers[i..]).0, Collect(answers[i..]).1)
    ensures Collect(answers) == ((added + [answers[i].value]) + Collect(answers[i + 1..]).0, Collect(answers[i + 1..]).1)
  {
    assert answers[i..][0] == answers[i];
    assert answers[i..][1..] == answers[i + 1..];
    assert added + ([answers[i].value] + Collect(answers[i + 1..]).0) == (added + [answers[i].value]) + Collect(answers[i + 1..]).0;
  }

  /** The handler's loop at an answer that throws: nothing more is reported. */
  lemma CollectStop(answers: seq<Option<BidResponse>>, i: nat, added: seq<BidResponse>)
    requires i < |answers| && answers[i].None?
    requires Collect(answers) == (added + Collect(answers[i..]).0, Collect(answers[i..]).1)
    ensures Collect(answers) == (added, true)
  {
    assert answers[i..][0] == answers[i];
    assert added + [] == added;
  }

  /** Every entry of the working map has the normal form of the original
      entry: what the in-place normalisation of the handler preserves. */
  predicate NormalFormsAgree(current: map<string, string>, original: map<string, string>)
  {
    && current.Keys == original.Keys
    && forall k :: k in current ==> PrepareInfo(current[k]) == PrepareInfo(original[k])
  }

  /** The body of the handler's loop for one slot key: normalise the entry in
      place (`bidInfoMap[bid.adSlot] = ...replace(...)`), then parse it. What
      is parsed is the normal form of the original entry. */
  method NormaliseAndParse(current: map<string, string>, ghost original: map<string, string>, key: string)
    returns (next: map<string, string>, info: SlotInfo)
    requires NormalFormsAgree(current, original)
    ensures NormalFormsAgree(next, original)
    ensures info == ParseSlotInfo(InfoText(original, key))
  {
    next := current;
    if key in next && next[key] != "" && '=' !in next[key] {
      PrepareInfoIdempotent(next[key]);
      next := next[key := DfpRewrite(next[key])];
    }
    info := ParseSlotInfo(if key in next then next[key] else "");
  }
}
