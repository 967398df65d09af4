/**
The scan in ip_rcv_core that drops packets containing "HTTP". It walks along the keyword and
falls back to its start on a mismatch, without looking at the mismatching byte again, so it
is not a search for the keyword; the lemmas below say exactly what it is.
*/
module KeywordScan {

  const KEYWORD: string := "HTTP"

  /** One byte: on along the keyword, or back to its start. */
  function Walk(k: nat, ch: char): (k': nat)
    requires k < |KEYWORD|
    ensures k' <= |KEYWORD|
  {
    if ch == KEYWORD[k] then k + 1 else 0
  }

  /** Where the walker stands after `data`; it stops for good at the end of the keyword. */
  function WalkOver(k: nat, data: string): (k': nat)
    requires k <= |KEYWORD|
    ensures k' <= |KEYWORD|
  {
    if data == [] then k
    else
      var before := WalkOver(k, data[..|data| - 1]);
      if before == |KEYWORD| then before else Walk(before, data[|data| - 1])
  }

  /** The scan drops a packet exactly if its walker reaches the end of the keyword. */
  method Scan(data: string) returns (drop: bool)
    ensures drop <==> WalkOver(0, data) == |KEYWORD|
  {
    var walker := 0;
    for i := 0 to |data|
      invariant walker < |KEYWORD| && walker == WalkOver(0, data[..i])
    {
      assert data[..i + 1][..i] == data[..i];
      if data[i] == KEYWORD[walker] {
        walker := walker + 1;
      } else {
        walker := 0;
      }
      if walker == |KEYWORD| {
        FullStays(data[..i + 1], data[i + 1..]);
        assert data == data[..i + 1] + data[i + 1..];
        return true;
      }
    }
    assert data[..|data|] == data;
    return false;
  }

  predicate Drops(data: string) {
    WalkOver(0, data) == |KEYWORD|
  }

  predicate OccursAt(data: string, i: nat) {
    i + |KEYWORD| <= |data| && data[i..i + |KEYWORD|] == KEYWORD
  }

  lemma {:induction false} WalkConcat(k: nat, a: string, b: string)
    requires k <= |KEYWORD|
    ensures WalkOver(k, a + b) == WalkOver(WalkOver(k, a), b)
    decreases |b|
  {
    if b == [] {
      assert a + b == a;
    } else {
      assert (a + b)[..|a + b| - 1] == a + b[..|b| - 1];
      WalkConcat(k, a, b[..|b| - 1]);
    }
  }

  lemma {:induction false} FullIsFinal(b: string)
    ensures WalkOver(|KEYWORD|, b) == |KEYWORD|
    decreases |b|
  {
    if b != [] {
      FullIsFinal(b[..|b| - 1]);
    }
  }

  lemma FullStays(a: string, b: string)
    requires Drops(a)
    ensures Drops(a + b)
  {
    WalkConcat(0, a, b);
    FullIsFinal(b);
  }

  /** From position `k` of the keyword, its next bytes up to `j` lead to `j`. */
  lemma {:induction false} WalkAlong(k: nat, j: nat)
    requires k <= j <= |KEYWORD|
    ensures WalkOver(k, KEYWORD[k..j]) == j
    decreases j
  {
    if k < j {
      WalkAlong(k, j - 1);
      assert KEYWORD[k..j][..j - k - 1] == KEYWORD[k..j - 1];
    }
  }

  /** A text that ends in a start of `word` and goes on with its next letter ends in a longer start. */
  lemma LongerStart(text: string, word: string, j: nat)
    requires text != [] && j < |word| && j < |text| && text[|text| - 1] == word[j]
    requires text[..|text| - 1][|text| - 1 - j..] == word[..j]
    ensures text[|text| - (j + 1)..] == word[..j + 1]
  {
    var before := text[..|text| - 1];
    assert text[|text| - (j + 1)..] == before[|before| - j..] + [text[|text| - 1]];
  }

  /** A walker in the middle of the keyword has just seen that much of it. */
  lemma {:induction false} WalkerHasSeenPrefix(data: string)
    requires !Drops(data)
    ensures
      var k := WalkOver(0, data);
      k <= |data| && data[|data| - k..] == KEYWORD[..k]
    decreases |data|
  {
    if data != [] {
      var before := data[..|data| - 1];
      WalkerHasSeenPrefix(before);
      var j := WalkOver(0, before);
      if data[|data| - 1] == KEYWORD[j] {
        LongerStart(data, KEYWORD, j);
      }
    }
  }

  /** What is dropped does contain the keyword. */
  lemma {:induction false} DropsOnlyOccurrences(data: string) returns (i: nat)
    requires Drops(data)
    ensures OccursAt(data, i)
    decreases |data|
  {
    var before := data[..|data| - 1];
    if Drops(before) {
      i := DropsOnlyOccurrences(before);
      assert data[i..i + |KEYWORD|] == before[i..i + |KEYWORD|];
    } else {
      WalkerHasSeenPrefix(before);
      i := |data| - |KEYWORD|;
      assert data[i..] == before[|before| - 3..] + [data[|data| - 1]];
    }
  }

  /**
  What passes in spite of an occurrence: right before each occurrence stands "H", "HT" or
  "HTT", which the walker was in the middle of when the occurrence began.
  */
  lemma MissedOccurrence(data: string, i: nat)
    requires !Drops(data) && OccursAt(data, i)
    ensures
      var k := WalkOver(0, data[..i]);
      0 < k < |KEYWORD| && k <= i && data[i - k..i] == KEYWORD[..k]
  {
    var a, b, c := data[..i], data[i..i + |KEYWORD|], data[i + |KEYWORD|..];
    assert data == a + b + c == a + (b + c);
    if Drops(a) {
      FullStays(a, b + c);
    }
    var k := WalkOver(0, a);
    WalkerHasSeenPrefix(a);
    assert data[i - k..i] == a[|a| - k..];
    if k == 0 {
      WalkConcat(0, a, b);
      WalkAlong(0, |KEYWORD|);
      assert KEYWORD[0..|KEYWORD|] == KEYWORD;
      FullStays(a + b, c);
    }
  }

  /** So a packet whose occurrence is not preceded by a start of the keyword is dropped. */
  lemma CleanOccurrenceIsDropped(data: string, i: nat)
    requires OccursAt(data, i)
    requires forall k :: 0 < k < |KEYWORD| && k <= i ==> data[i - k..i] != KEYWORD[..k]
    ensures Drops(data)
  {
    if !Drops(data) {
      MissedOccurrence(data, i);
    }
  }

  /** "HHTTP" contains the keyword and passes. */
  lemma SomeOccurrencesPass()
    ensures OccursAt("HHTTP", 1) && !Drops("HHTTP")
  {
    var d := "HHTTP";
    assert d[1..5] == KEYWORD;
    assert d[..4] == "HHTT" && "HHTT"[..3] == "HHT" && "HHT"[..2] == "HH" && "HH"[..1] == "H" && "H"[..0] == "";
    assert WalkOver(0, "H") == 1;
    assert WalkOver(0, "HH") == 0;
    assert WalkOver(0, "HHT") == 0;
    assert WalkOver(0, "HHTT") == 0;
  }

  // The language of packets that pass

  /** A proper start of the keyword followed by a byte that does not continue it. */
  predicate IsFailedAttempt(b: string) {
    && 0 < |b| <= |KEYWORD|
    && b[..|b| - 1] == KEYWORD[..|b| - 1] && b[|b| - 1] != KEYWORD[|b| - 1]
  }

  function Join(blocks: seq<string>): string {
    if blocks == [] then [] else Join(blocks[..|blocks| - 1]) + blocks[|blocks| - 1]
  }

  /** `data` is a sequence of failed attempts and then a proper start of the keyword. */
  predicate IsTiling(data: string, blocks: seq<string>, k: nat) {
    && k < |KEYWORD| && data == Join(blocks) + KEYWORD[..k]
    && forall i :: 0 <= i < |blocks| ==> IsFailedAttempt(blocks[i])
  }

  lemma FailedAttemptReturns(b: string)
    requires IsFailedAttempt(b)
    ensures WalkOver(0, b) == 0
  {
    WalkAlong(0, |b| - 1);
  }

  lemma {:induction false} AttemptsReturn(blocks: seq<string>)
    requires forall i :: 0 <= i < |blocks| ==> IsFailedAttempt(blocks[i])
    ensures WalkOver(0, Join(blocks)) == 0
  {
    if blocks != [] {
      var last := blocks[|blocks| - 1];
      AttemptsReturn(blocks[..|blocks| - 1]);
      FailedAttemptReturns(last);
      WalkConcat(0, Join(blocks[..|blocks| - 1]), last);
    }
  }

  /** One more byte either continues the unfinished attempt or makes it a failed one. */
  lemma TileOneMore(before: string, ch: char, blocks: seq<string>, k: nat) returns (blocks': seq<string>, k': nat)
    requires IsTiling(before, blocks, k) && Walk(k, ch) < |KEYWORD|
    ensures IsTiling(before + [ch], blocks', k') && k' == Walk(k, ch)
  {
    if ch == KEYWORD[k] {
      assert KEYWORD[..k] + [ch] == KEYWORD[..k + 1];
      blocks', k' := blocks, k + 1;
    } else {
      var b := KEYWORD[..k] + [ch];
      blocks', k' := blocks + [b], 0;
      assert blocks'[..|blocks|] == blocks;
      assert before + [ch] == Join(blocks) + b;
    }
  }

  lemma {:induction false} Tile(data: string) returns (blocks: seq<string>, k: nat)
    requires !Drops(data)
    ensures IsTiling(data, blocks, k) && k == WalkOver(0, data)
    decreases |data|
  {
    if data == [] {
      blocks, k := [], 0;
    } else {
      var before, ch := data[..|data| - 1], data[|data| - 1];
      assert before + [ch] == data;
      blocks, k := Tile(before);
      blocks, k := TileOneMore(before, ch, blocks, k);
    }
  }

  /** A packet passes exactly if it is a sequence of failed attempts and a last unfinished one. */
  lemma PassesIff(data: string)
    ensures !Drops(data) <==> exists blocks: seq<string>, k: nat :: IsTiling(data, blocks, k)
  {
    if !Drops(data) {
      var blocks, k := Tile(data);
    }
    if exists blocks: seq<string>, k: nat :: IsTiling(data, blocks, k) {
      var blocks: seq<string>, k: nat :| IsTiling(data, blocks, k);
      AttemptsReturn(blocks);
      WalkConcat(0, Join(blocks), KEYWORD[..k]);
      WalkAlong(0, k);
      assert KEYWORD[0..k] == KEYWORD[..k];
    }
  }
}
