/**
 * The identifier index's key discipline: how `addToMap` resolves a
 * collision, and which key `generateID` produces for an item the document
 * leaves without a usable id (a comment).
 */
module Identifiers {
  import opened Wrappers
  import opened Text

  function Underscores(n: nat): (s: string)
    ensures |s| == n
  {
    seq(n, _ => '_')
  }

  /** The keys that have `id` as a prefix. */
  function KeysExtending(keys: set<string>, id: string): set<string>
  {
    set k | k in keys && |id| <= |k| && k[..|id|] == id
  }

  lemma ExtendingShrinks(keys: set<string>, id: string)
    requires id in keys
    ensures |KeysExtending(keys, id + "_")| < |KeysExtending(keys, id)|
  {
    var a, b := KeysExtending(keys, id + "_"), KeysExtending(keys, id);
    forall k | k in a ensures k in b {
      assert k[..|id|] == k[..|id| + 1][..|id|];
    }
    assert id in b - a;
    assert b == a + (b - a);
  }

  /** How many `_` `addToMap` appends to `id` before the key is unused. */
  function SuffixCount(keys: set<string>, id: string): nat
    decreases |KeysExtending(keys, id)|
  {
    if id in keys then
      ExtendingShrinks(keys, id);
      1 + SuffixCount(keys, id + "_")
    else 0
  }

  /** The key `addToMap` commits for `id`. */
  function CommitKey(keys: set<string>, id: string): string
  {
    id + Underscores(SuffixCount(keys, id))
  }

  /** The committed key is `id` followed by the fewest `_` that make it
      absent from the index: every shorter candidate is already a key. */
  lemma {:induction false} CommitKeyIsFewest(keys: set<string>, id: string)
    ensures CommitKey(keys, id) !in keys
    ensures forall j :: 0 <= j < SuffixCount(keys, id) ==> id + Underscores(j) in keys
    decreases |KeysExtending(keys, id)|
  {
    if id in keys {
      ExtendingShrinks(keys, id);
      var id' := id + "_";
      CommitKeyIsFewest(keys, id');
      var n := SuffixCount(keys, id');
      assert id' + Underscores(n) == id + Underscores(n + 1);
      forall j | 0 <= j < n + 1 ensures id + Underscores(j) in keys {
        if j == 0 {
          assert id + Underscores(0) == id;
        } else {
          assert id' + Underscores(j - 1) == id + Underscores(j);
        }
      }
    } else {
      assert id + Underscores(0) == id;
    }
  }

  // ---- generated ids ---------------------------------------------------

  const GeneratedPrefix: string := "id-"

  /** The format `generateID` passes to `arg`. `%d` is not a place marker of
      `QString::arg`, whose markers are `%1`, `%2`, ... */
  const AsWrittenFormat: string := "id-%d"

  /** The format evidently intended. */
  const IntendedFormat: string := "id-%1"

  /** The id every draw of `generateID` yields as written. */
  const LiteralId: string := "id-%d"

  /** The candidate of one draw of `generateID` as written: `qrand()`
      reduced modulo 10000 and formatted with `arg`. */
  function DrawAsWritten(draw: nat): string
  {
    Arg(AsWrittenFormat, Decimal(draw % 10000))
  }

  /** The as-written format has no place marker, so whatever is drawn the
      candidate is the literal `id-%d`. */
  lemma EveryDrawIsLiteral(draw: nat)
    ensures DrawAsWritten(draw) == LiteralId
  {
    forall i: nat | i < |AsWrittenFormat| ensures !MarkerAt(AsWrittenFormat, i) {
      assert AsWrittenFormat[4] == 'd';
    }
    ArgWithoutMarker(AsWrittenFormat, Decimal(draw % 10000));
  }

  /** As written: while the literal is free, a request returns it at once;
      once it is a key (after the first generated id was registered by
      `addToMap`, whose committed key is then the literal itself), every
      draw is a key, so the retry loop never ends. */
  lemma AsWrittenSecondRequestHangs(keys: set<string>, draw: nat)
    ensures LiteralId !in keys ==> DrawAsWritten(draw) !in keys && DrawAsWritten(draw) == LiteralId
    ensures LiteralId !in keys ==> CommitKey(keys, LiteralId) == LiteralId
    ensures LiteralId !in keys ==> DrawAsWritten(draw) in keys + {CommitKey(keys, LiteralId)}
    ensures LiteralId in keys ==> DrawAsWritten(draw) in keys
  {
    EveryDrawIsLiteral(draw);
    assert LiteralId + Underscores(0) == LiteralId;
  }

  /** The id the intended format `QString("id-%1").arg(num)` gives for `num`. */
  function Candidate(num: nat): string
  {
    GeneratedPrefix + Decimal(num)
  }

  /** The intended format gives `Candidate(num)` for the drawn number. */
  lemma IntendedFormatGivesCandidate(num: nat)
    ensures Arg(IntendedFormat, Decimal(num)) == Candidate(num)
  {
    var v := Decimal(num);
    var k := LowestMarkerIsLowest(IntendedFormat);
    assert MarkerAt(IntendedFormat, 3);
    forall i: nat | i < |IntendedFormat| && i != 3 ensures !MarkerAt(IntendedFormat, i) {
    }
    assert LowestMarker(IntendedFormat) == Some('1');
    assert IntendedFormat[1..][1..][1..] == "%1";
    assert Substitute("%1", '1', v) == v + Substitute("", '1', v);
  }

  /** The number a generated id carries, if `s` has that form. */
  function CandidateNumber(s: string): Option<nat>
  {
    if |s| > |GeneratedPrefix| && s[..|GeneratedPrefix|] == GeneratedPrefix
       && AllDigits(s[|GeneratedPrefix|..])
    then Some(DigitsValue(s[|GeneratedPrefix|..]))
    else None
  }

  /** Generated ids can be read back, so distinct numbers give distinct ids. */
  lemma CandidateRoundTrip(num: nat)
    ensures CandidateNumber(Candidate(num)) == Some(num)
  {
    DecimalRoundTrip(num);
    var s := Candidate(num);
    assert s[..3] == GeneratedPrefix && s[3..] == Decimal(num);
  }

  /** Keys that are generated ids numbered `num` or more. */
  function CandidatesFrom(keys: set<string>, num: nat): set<string>
  {
    set k | k in keys && CandidateNumber(k).Some? && CandidateNumber(k).value >= num
  }

  lemma CandidatesShrink(keys: set<string>, num: nat)
    requires Candidate(num) in keys
    ensures |CandidatesFrom(keys, num + 1)| < |CandidatesFrom(keys, num)|
  {
    var a, b := CandidatesFrom(keys, num + 1), CandidatesFrom(keys, num);
    CandidateRoundTrip(num);
    assert Candidate(num) in b - a;
    assert b == a + (b - a);
  }

  /** The first generated id numbered `num` or more that is not a key. */
  function FreshIdFrom(keys: set<string>, num: nat): string
    decreases |CandidatesFrom(keys, num)|
  {
    if Candidate(num) in keys then
      CandidatesShrink(keys, num);
      FreshIdFrom(keys, num + 1)
    else Candidate(num)
  }

  /** The id the corrected `generateID` produces. */
  function FreshId(keys: set<string>): string
  {
    FreshIdFrom(keys, 0)
  }

  lemma {:induction false} FreshIdFromIsFresh(keys: set<string>, num: nat) returns (n: nat)
    ensures num <= n && FreshIdFrom(keys, num) == Candidate(n) && Candidate(n) !in keys
    decreases |CandidatesFrom(keys, num)|
  {
    if Candidate(num) in keys {
      CandidatesShrink(keys, num);
      n := FreshIdFromIsFresh(keys, num + 1);
    } else {
      n := num;
    }
  }

  /** The corrected generator returns an id of the form `id-<number>` that
      is not currently a key. */
  lemma FreshIdIsFresh(keys: set<string>)
    ensures FreshId(keys) !in keys
    ensures CandidateNumber(FreshId(keys)).Some?
  {
    var n := FreshIdFromIsFresh(keys, 0);
    CandidateRoundTrip(n);
  }
}
