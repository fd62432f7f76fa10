/** A hash-linked header chain with proof-of-work and a contentious fork: above a fork height
    one community accepts only even states and the other only odd ones. The hash function is
    a parameter; `u64` arithmetic that would overflow panics, which the model writes out. */
module Consensus {
  import opened Wrappers

  const U64_MAX: int := 0xFFFF_FFFF_FFFF_FFFF
  type U64 = x: int | 0 <= x <= U64_MAX

  /** `u64::MAX / 100`: about one hash in a hundred is below it. */
  const THRESHOLD: U64 := U64_MAX / 100

  /** The height above which the parity rules apply. */
  const FORK_HEIGHT: U64 := 2

  datatype Header = Header(parent: U64, height: U64, extrinsic: U64, state: U64, consensusDigest: U64)

  /** Which states a community accepts above the fork height. */
  datatype Rule = Even | Odd | Unspecified

  /** What the proof-of-work check compares with the threshold: the digest field, as the code
      does, or the header's own hash, as its documentation says. */
  datatype Work = DigestBelow | HashBelow

  /** A validation either answers, or panics on `u64` overflow or underflow. */
  datatype Verdict = Valid | Invalid | Panic

  /** `Header::default()`. */
  function Genesis(): (g: Header)
    ensures g.parent == 0 && g.height == 0 && g.extrinsic == 0 && g.state == 0 && g.consensusDigest == 0
  {
    Header(0, 0, 0, 0, 0)
  }

  // ---------------------------------------------------------------------------
  // Mining a child

  /** Whether `self.height + 1` or `self.state + extrinsic` overflows. */
  predicate ChildOverflows(parent: Header, extrinsic: U64)
  {
    parent.height == U64_MAX || parent.state + extrinsic > U64_MAX
  }

  /** The child tried with a given digest. */
  function Candidate(parent: Header, extrinsic: U64, hash: Header -> U64, digest: U64): Header
    requires !ChildOverflows(parent, extrinsic)
  {
    Header(hash(parent), parent.height + 1, extrinsic, parent.state + extrinsic, digest)
  }

  /** The first candidate from `digest` on whose hash is below the threshold; none once the
      digest would overflow. */
  function Mine(parent: Header, extrinsic: U64, hash: Header -> U64, digest: U64): Option<Header>
    requires !ChildOverflows(parent, extrinsic)
    decreases U64_MAX - digest
  {
    var h := Candidate(parent, extrinsic, hash, digest);
    if hash(h) < THRESHOLD then Some(h)
    else if digest == U64_MAX then None
    else Mine(parent, extrinsic, hash, digest + 1)
  }

  /** The outcome of `child`: the mined header, or none where the code panics. */
  function ChildOf(parent: Header, extrinsic: U64, hash: Header -> U64): Option<Header>
  {
    if ChildOverflows(parent, extrinsic) then None else Mine(parent, extrinsic, hash, 0)
  }

  /** `Header::child`: try digests 0, 1, 2, ... until the hash is below the threshold. */
  method Child(parent: Header, extrinsic: U64, hash: Header -> U64) returns (r: Option<Header>)
    ensures r == ChildOf(parent, extrinsic, hash)
  {
    if ChildOverflows(parent, extrinsic) {
      return None;
    }
    var parentHash := hash(parent);
    var digest: U64 := 0;
    while true
      invariant Mine(parent, extrinsic, hash, digest) == Mine(parent, extrinsic, hash, 0)
      decreases U64_MAX - digest
    {
      var possible := Header(parentHash, parent.height + 1, extrinsic, parent.state + extrinsic, digest);
      if hash(possible) < THRESHOLD {
        return Some(possible);
      }
      if digest == U64_MAX {
        return None;
      }
      digest := digest + 1;
    }
  }

  /** What mining from `digest` on finds: a child of `parent` carrying `extrinsic`, with the
      first digest whose hash is below the threshold; none only when no digest works. */
  lemma {:induction false} MineMeaning(parent: Header, extrinsic: U64, hash: Header -> U64, digest: U64)
    requires !ChildOverflows(parent, extrinsic)
    ensures var r := Mine(parent, extrinsic, hash, digest);
      && (r.None? <==> forall d: U64 :: digest <= d ==> hash(Candidate(parent, extrinsic, hash, d)) >= THRESHOLD)
      && (r.Some? ==> && digest <= r.value.consensusDigest
                      && r.value == Candidate(parent, extrinsic, hash, r.value.consensusDigest)
                      && hash(r.value) < THRESHOLD
                      && forall d: U64 :: digest <= d < r.value.consensusDigest ==>
                           hash(Candidate(parent, extrinsic, hash, d)) >= THRESHOLD)
    decreases U64_MAX - digest
  {
    if hash(Candidate(parent, extrinsic, hash, digest)) >= THRESHOLD && digest < U64_MAX {
      MineMeaning(parent, extrinsic, hash, digest + 1);
    }
  }

  /** A child links to its parent: the parent's hash, the next height, the extrinsic, the state
      plus the extrinsic, and a hash below the threshold. */
  lemma ChildLinks(parent: Header, extrinsic: U64, hash: Header -> U64)
    requires ChildOf(parent, extrinsic, hash).Some?
    ensures var c := ChildOf(parent, extrinsic, hash).value;
      && c.parent == hash(parent) && c.height == parent.height + 1
      && c.extrinsic == extrinsic && c.state == parent.state + extrinsic
      && hash(c) < THRESHOLD
  {
    MineMeaning(parent, extrinsic, hash, 0);
  }

  // ---------------------------------------------------------------------------
  // Validating a chain

  /** `header.height - 1` underflows at height 0 and `header.extrinsic + parent.state` may
      overflow; both are computed before any check is looked at. */
  predicate LinkPanics(parent: Header, h: Header)
  {
    h.height == 0 || h.extrinsic + parent.state > U64_MAX
  }

  predicate WorkDone(h: Header, hash: Header -> U64, work: Work)
  {
    match work
    case DigestBelow => h.consensusDigest < THRESHOLD
    case HashBelow => hash(h) < THRESHOLD
  }

  /** The four checks against the predecessor. */
  predicate Linked(parent: Header, h: Header, hash: Header -> U64, work: Work)
  {
    && h.parent == hash(parent)
    && parent.height == h.height - 1
    && h.state == h.extrinsic + parent.state
    && WorkDone(h, hash, work)
  }

  /** The parity rule, which only applies above the fork height. */
  predicate StateFits(h: Header, rule: Rule)
  {
    h.height <= FORK_HEIGHT ||
    match rule
    case Even => h.state % 2 == 0
    case Odd => h.state % 2 == 1
    case Unspecified => true
  }

  /** `verify_sub_chain_based_on_state`, with the proof-of-work check as a parameter. */
  function Check(parent: Header, chain: seq<Header>, rule: Rule, hash: Header -> U64, work: Work): Verdict
    decreases |chain|
  {
    if chain == [] then Valid
    else
      var h := chain[0];
      if LinkPanics(parent, h) then Panic
      else if !Linked(parent, h, hash, work) || !StateFits(h, rule) then Invalid
      else Check(h, chain[1..], rule, hash, work)
  }

  /** The header before position `i`: the starting header, then the chain itself. */
  function Before(start: Header, chain: seq<Header>, i: nat): Header
    requires i < |chain|
  {
    if i == 0 then start else chain[i - 1]
  }

  /** The validation loop, as written: the cursor `parent_header` walks the chain and the first
      failing header ends it. */
  method VerifySubChainBasedOnState(start: Header, chain: seq<Header>, rule: Rule, hash: Header -> U64)
    returns (r: Verdict)
    ensures r == Check(start, chain, rule, hash, DigestBelow)
  {
    var parentHeader := start;
    for i := 0 to |chain|
      invariant Check(parentHeader, chain[i..], rule, hash, DigestBelow) == Check(start, chain, rule, hash, DigestBelow)
    {
      var header := chain[i];
      assert chain[i..][1..] == chain[i + 1..];
      if LinkPanics(parentHeader, header) {
        return Panic;
      }
      var parentHashCorrect := header.parent == hash(parentHeader);
      var heightCorrect := parentHeader.height == header.height - 1;
      var extrinsicCorrect := header.state == header.extrinsic + parentHeader.state;
      var digestCorrect := header.consensusDigest < THRESHOLD;
      if parentHashCorrect && heightCorrect && extrinsicCorrect && digestCorrect {
        if header.height > FORK_HEIGHT {
          var stateCorrect := match rule
            case Even => header.state % 2 == 0
            case Odd => header.state % 2 == 1
            case Unspecified => true;
          if !stateCorrect {
            return Invalid;
          }
        }
        parentHeader := header;
      } else {
        return Invalid;
      }
    }
    return Valid;
  }

  method VerifySubChain(start: Header, chain: seq<Header>, hash: Header -> U64) returns (r: Verdict)
    ensures r == Check(start, chain, Unspecified, hash, DigestBelow)
  {
    r := VerifySubChainBasedOnState(start, chain, Unspecified, hash);
  }

  method VerifySubChainEven(start: Header, chain: seq<Header>, hash: Header -> U64) returns (r: Verdict)
    ensures r == Check(start, chain, Even, hash, DigestBelow)
  {
    r := VerifySubChainBasedOnState(start, chain, Even, hash);
  }

  method VerifySubChainOdd(start: Header, chain: seq<Header>, hash: Header -> U64) returns (r: Verdict)
    ensures r == Check(start, chain, Odd, hash, DigestBelow)
  {
    r := VerifySubChainBasedOnState(start, chain, Odd, hash);
  }

  // ---------------------------------------------------------------------------
  // Properties of validation

  /** A chain is valid exactly when every header passes the four checks and the parity rule
      against the header before it, without overflow. */
  lemma {:induction false} CheckValidIff(start: Header, chain: seq<Header>, rule: Rule,
                                         hash: Header -> U64, work: Work)
    ensures Check(start, chain, rule, hash, work) == Valid <==>
      forall i :: 0 <= i < |chain| ==>
        && !LinkPanics(Before(start, chain, i), chain[i])
        && Linked(Before(start, chain, i), chain[i], hash, work)
        && StateFits(chain[i], rule)
    decreases |chain|
  {
    if chain != [] {
      var rest := chain[1..];
      CheckValidIff(chain[0], rest, rule, hash, work);
      forall i | 1 <= i < |chain|
        ensures Before(start, chain, i) == Before(chain[0], rest, i - 1)
        ensures chain[i] == rest[i - 1]
      {
      }
    }
  }

  /** Validation stops at the first failing header, so every prefix of a valid chain is valid. */
  lemma {:induction false} PrefixOfValid(start: Header, chain: seq<Header>, k: nat, rule: Rule,
                                         hash: Header -> U64, work: Work)
    requires Check(start, chain, rule, hash, work) == Valid
    requires k <= |chain|
    ensures Check(start, chain[..k], rule, hash, work) == Valid
    decreases k
  {
    if k > 0 {
      assert chain[..k][0] == chain[0];
      assert chain[..k][1..] == chain[1..][..k - 1];
      PrefixOfValid(chain[0], chain[1..], k - 1, rule, hash, work);
    }
  }

  /** A chain valid for either side of the fork is valid under the original rules. */
  lemma {:induction false} PartisanImpliesUnspecified(start: Header, chain: seq<Header>, rule: Rule,
                                                      hash: Header -> U64, work: Work)
    requires Check(start, chain, rule, hash, work) == Valid
    ensures Check(start, chain, Unspecified, hash, work) == Valid
    decreases |chain|
  {
    if chain != [] {
      PartisanImpliesUnspecified(chain[0], chain[1..], rule, hash, work);
    }
  }

  /** Up to the fork height the parity rule makes no difference. */
  lemma {:induction false} RulesAgreeBeforeFork(start: Header, chain: seq<Header>, rule: Rule, rule': Rule,
                                                hash: Header -> U64, work: Work)
    requires forall i :: 0 <= i < |chain| ==> chain[i].height <= FORK_HEIGHT
    ensures Check(start, chain, rule, hash, work) == Check(start, chain, rule', hash, work)
    decreases |chain|
  {
    if chain != [] {
      RulesAgreeBeforeFork(chain[0], chain[1..], rule, rule', hash, work);
    }
  }

  /** No chain that reaches above the fork height is valid for both sides. */
  lemma {:induction false} ForkIsContentious(start: Header, chain: seq<Header>, hash: Header -> U64, work: Work)
    requires Check(start, chain, Even, hash, work) == Valid
    requires Check(start, chain, Odd, hash, work) == Valid
    ensures forall i :: 0 <= i < |chain| ==> chain[i].height <= FORK_HEIGHT
    decreases |chain|
  {
    if chain != [] {
      ForkIsContentious(chain[0], chain[1..], hash, work);
      forall i | 1 <= i < |chain|
        ensures chain[i].height <= FORK_HEIGHT
      {
        assert chain[i] == chain[1..][i - 1];
      }
    }
  }

  /** Heights along a valid chain count up by one from the starting header. */
  lemma {:induction false} ValidHeights(start: Header, chain: seq<Header>, rule: Rule,
                                        hash: Header -> U64, work: Work)
    requires Check(start, chain, rule, hash, work) == Valid
    ensures forall i :: 0 <= i < |chain| ==> chain[i].height == start.height + i + 1
    decreases |chain|
  {
    if chain != [] {
      ValidHeights(chain[0], chain[1..], rule, hash, work);
      forall i | 1 <= i < |chain|
        ensures chain[i].height == start.height + i + 1
      {
        assert chain[i] == chain[1..][i - 1];
      }
    }
  }

  // ---------------------------------------------------------------------------
  // The proof-of-work check as written and as documented

  /** The header of the prototype's test that sets the digest of a mined child of genesis with
      extrinsic 5 to 10. */
  function DigestTen(hash: Header -> U64): Header
  {
    Header(hash(Genesis()), 1, 5, 5, 10)
  }

  /** As written the check accepts that header whatever its hash, so the test expecting a
      rejection fails; the documented check rejects it whenever its hash is not below the
      threshold. */
  lemma DigestCheckIgnoresHash(hash: Header -> U64)
    ensures Check(Genesis(), [DigestTen(hash)], Unspecified, hash, DigestBelow) == Valid
    ensures hash(DigestTen(hash)) >= THRESHOLD ==>
      Check(Genesis(), [DigestTen(hash)], Unspecified, hash, HashBelow) == Invalid
  {
    assert [DigestTen(hash)][1..] == [];
  }

  /** With the documented check, every header of a valid chain has a hash below the threshold. */
  lemma HashCheckedChainHasWork(start: Header, chain: seq<Header>, rule: Rule, hash: Header -> U64)
    requires Check(start, chain, rule, hash, HashBelow) == Valid
    ensures forall i :: 0 <= i < |chain| ==> hash(chain[i]) < THRESHOLD
  {
    CheckValidIff(start, chain, rule, hash, HashBelow);
    forall i | 0 <= i < |chain|
      ensures hash(chain[i]) < THRESHOLD
    {
      assert WorkDone(chain[i], hash, HashBelow);
    }
  }

  /** With the documented check, a mined child is a valid one-header chain under the original
      rules. */
  lemma MinedChildVerifies(parent: Header, extrinsic: U64, hash: Header -> U64)
    requires ChildOf(parent, extrinsic, hash).Some?
    ensures Check(parent, [ChildOf(parent, extrinsic, hash).value], Unspecified, hash, HashBelow) == Valid
  {
    ChildLinks(parent, extrinsic, hash);
    assert [ChildOf(parent, extrinsic, hash).value][1..] == [];
  }
}
