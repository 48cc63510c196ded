/**
 * Reconstruction of a Tendermint validator set from the two query results
 * for a height: the block's base64 proposer address and the raw validator
 * records. The records are mapped one by one in order; the pass adds up the
 * voting power and remembers the last record whose address encodes to the
 * proposer address.
 */
module Validators {
  import opened Wrappers
  import Base64

  type Bytes = seq<Base64.Byte>

  /** The public key of a raw validator record: an algorithm name and the key bytes. */
  datatype RawPubKey = RawPubKey(algorithm: string, data: Bytes)

  /**
   * A validator record as the validator query returns it. The proposer
   * priority is a JavaScript number that may be missing.
   */
  datatype RawValidator = RawValidator(
    address: Bytes,
    pubkey: RawPubKey,
    votingPower: int,
    proposerPriority: Option<int>)

  /** The two key variants of a Tendermint public key. */
  datatype PublicKey = Ed25519(ed25519: Bytes) | Secp256k1(secp256k1: Bytes)

  /** A canonical Tendermint validator. */
  datatype Validator = Validator(
    address: Bytes,
    pubKey: PublicKey,
    votingPower: int,
    proposerPriority: Option<int>)

  /** A Tendermint validator set; the proposer is unset when no validator matched. */
  datatype ValidatorSet = ValidatorSet(
    validators: seq<Validator>,
    totalVotingPower: int,
    proposer: Option<Validator>)

  function KeyBytes(k: PublicKey): Bytes
  {
    match k
    case Ed25519(b) => b
    case Secp256k1(b) => b
  }

  /** The key variant named by the record's algorithm: `ed25519`, and `secp256k1` for anything else. */
  function ConvertPubKey(k: RawPubKey): (pk: PublicKey)
    ensures pk.Ed25519? <==> k.algorithm == "ed25519"
    ensures pk.Secp256k1? <==> k.algorithm != "ed25519"
    ensures KeyBytes(pk) == k.data
  {
    if k.algorithm == "ed25519" then Ed25519(k.data) else Secp256k1(k.data)
  }

  /** JavaScript truthiness of an optional number: present and non-zero. */
  predicate Truthy(p: Option<int>)
  {
    p.Some? && p.value != 0
  }

  /** The canonical validator for one raw record. */
  function MapValidator(raw: RawValidator): (v: Validator)
    ensures v.address == raw.address
    ensures v.votingPower == raw.votingPower
    ensures v.pubKey.Ed25519? <==> raw.pubkey.algorithm == "ed25519"
    ensures KeyBytes(v.pubKey) == raw.pubkey.data
    ensures v.proposerPriority.Some? <==> Truthy(raw.proposerPriority)
    ensures v.proposerPriority.Some? ==> v.proposerPriority == raw.proposerPriority
  {
    Validator(
      raw.address,
      ConvertPubKey(raw.pubkey),
      raw.votingPower,
      if Truthy(raw.proposerPriority) then raw.proposerPriority else None)
  }

  /** `validators` is `records` mapped in order, one validator per record. */
  predicate MapsRecords(validators: seq<Validator>, records: seq<RawValidator>)
  {
    |validators| == |records| &&
    forall k :: 0 <= k < |records| ==> validators[k] == MapValidator(records[k])
  }

  /** The sum of the voting power of `vs`. */
  function TotalPower(vs: seq<Validator>): (r: int)
    decreases |vs|
  {
    if |vs| == 0 then 0 else TotalPower(vs[..|vs| - 1]) + vs[|vs| - 1].votingPower
  }

  /** The validator's address, in base64, is the block's proposer address. */
  predicate IsProposer(proposerAddress: string, v: Validator)
  {
    Base64.Encode(v.address) == proposerAddress
  }

  /**
   * `p` is what the pass remembers as the proposer: the last validator of
   * `vs` whose address matches, or unset when none matches.
   */
  predicate IsLastProposer(p: Option<Validator>, proposerAddress: string, vs: seq<Validator>)
  {
    match p
    case None => forall k :: 0 <= k < |vs| ==> !IsProposer(proposerAddress, vs[k])
    case Some(v) =>
      exists k :: 0 <= k < |vs| && vs[k] == v && IsProposer(proposerAddress, vs[k]) &&
        forall j :: k < j < |vs| ==> !IsProposer(proposerAddress, vs[j])
  }

  /** What a reconstruction of `proposerAddress` and `records` is. */
  predicate Reconstructs(vs: ValidatorSet, proposerAddress: string, records: seq<RawValidator>)
  {
    MapsRecords(vs.validators, records) &&
    vs.totalVotingPower == TotalPower(vs.validators) &&
    IsLastProposer(vs.proposer, proposerAddress, vs.validators)
  }

  /**
   * Rebuilds the validator set of one height from the block's proposer
   * address and the validator records, in a single pass over the records.
   */
  method BuildValidatorSet(proposerAddress: string, records: seq<RawValidator>) returns (vs: ValidatorSet)
    ensures MapsRecords(vs.validators, records)
    ensures vs.totalVotingPower == TotalPower(vs.validators)
    ensures IsLastProposer(vs.proposer, proposerAddress, vs.validators)
    ensures vs.proposer.Some? <==>
      exists k :: 0 <= k < |vs.validators| && IsProposer(proposerAddress, vs.validators[k])
    ensures vs.proposer.Some? ==>
      vs.proposer.value in vs.validators &&
      Base64.Decode(proposerAddress) == Some(vs.proposer.value.address)
  {
    var proposer: Option<Validator> := None;
    var totalVotingPower := 0;
    var mapped: seq<Validator> := [];
    for i := 0 to |records|
      invariant MapsRecords(mapped, records[..i])
      invariant totalVotingPower == TotalPower(mapped)
      invariant IsLastProposer(proposer, proposerAddress, mapped)
    {
      var validator := MapValidator(records[i]);
      LastProposerStep(proposer, proposerAddress, mapped, validator);
      MapsRecordsStep(mapped, records, i);
      if proposerAddress == Base64.Encode(records[i].address) {
        proposer := Some(validator);
      }
      totalVotingPower := totalVotingPower + records[i].votingPower;
      assert (mapped + [validator])[..|mapped|] == mapped;
      mapped := mapped + [validator];
    }
    assert records[..|records|] == records;
    vs := ValidatorSet(mapped, totalVotingPower, proposer);
    ProposerFacts(vs.proposer, proposerAddress, vs.validators);
  }

  /** One more record keeps `mapped` the mapping of the records seen. */
  lemma MapsRecordsStep(mapped: seq<Validator>, records: seq<RawValidator>, i: nat)
    requires i < |records| && MapsRecords(mapped, records[..i])
    ensures MapsRecords(mapped + [MapValidator(records[i])], records[..i + 1])
  {
    assert records[..i + 1] == records[..i] + [records[i]];
  }

  /** Appending a validator: it becomes the proposer if it matches, otherwise the proposer stays. */
  lemma LastProposerStep(p: Option<Validator>, proposerAddress: string, vs: seq<Validator>, v: Validator)
    requires IsLastProposer(p, proposerAddress, vs)
    ensures IsLastProposer(if IsProposer(proposerAddress, v) then Some(v) else p, proposerAddress, vs + [v])
  {
    var ws := vs + [v];
    if IsProposer(proposerAddress, v) {
      assert ws[|vs|] == v;
    } else if p.Some? {
      var k :| 0 <= k < |vs| && vs[k] == p.value && IsProposer(proposerAddress, vs[k]) &&
        forall j :: k < j < |vs| ==> !IsProposer(proposerAddress, vs[j]);
      assert ws[k] == vs[k];
      assert forall j :: k < j < |ws| ==> !IsProposer(proposerAddress, ws[j]) by {
        forall j | k < j < |ws| ensures !IsProposer(proposerAddress, ws[j]) {
          if j < |vs| { assert ws[j] == vs[j]; }
        }
      }
    } else {
      assert forall j :: 0 <= j < |ws| ==> !IsProposer(proposerAddress, ws[j]) by {
        forall j | 0 <= j < |ws| ensures !IsProposer(proposerAddress, ws[j]) {
          if j < |vs| { assert ws[j] == vs[j]; }
        }
      }
    }
  }

  /**
   * The last-match proposer is set exactly when some validator matches, and
   * then it is a member whose address is the decoded proposer address.
   */
  lemma ProposerFacts(p: Option<Validator>, proposerAddress: string, vs: seq<Validator>)
    requires IsLastProposer(p, proposerAddress, vs)
    ensures p.Some? <==> exists k :: 0 <= k < |vs| && IsProposer(proposerAddress, vs[k])
    ensures p.Some? ==> p.value in vs && Base64.Decode(proposerAddress) == Some(p.value.address)
  {
    if p.Some? {
      Base64.DecodeEncode(p.value.address);
    }
  }

  /** All validators that match the proposer address share one address. */
  lemma MatchingAddressesAgree(proposerAddress: string, v: Validator, w: Validator)
    requires IsProposer(proposerAddress, v) && IsProposer(proposerAddress, w)
    ensures v.address == w.address
  {
    Base64.EncodeInjective(v.address, w.address);
  }

  /** The final voting power equals the sum over the raw records. */
  lemma {:induction false} TotalPowerOfMapped(validators: seq<Validator>, records: seq<RawValidator>)
    requires MapsRecords(validators, records)
    ensures TotalPower(validators) == RawTotalPower(records)
    decreases |records|
  {
    if |records| > 0 {
      var n := |records| - 1;
      assert MapsRecords(validators[..n], records[..n]);
      TotalPowerOfMapped(validators[..n], records[..n]);
    }
  }

  /** The sum of the voting power of raw records. */
  function RawTotalPower(records: seq<RawValidator>): (r: int)
    decreases |records|
  {
    if |records| == 0 then 0
    else RawTotalPower(records[..|records| - 1]) + records[|records| - 1].votingPower
  }

  /** The last-match proposer of a list is determined by the list. */
  lemma LastProposerUnique(p: Option<Validator>, q: Option<Validator>, proposerAddress: string, vs: seq<Validator>)
    requires IsLastProposer(p, proposerAddress, vs) && IsLastProposer(q, proposerAddress, vs)
    ensures p == q
  {
  }

  /** A reconstruction is determined by its inputs. */
  lemma ReconstructionUnique(a: ValidatorSet, b: ValidatorSet, proposerAddress: string, records: seq<RawValidator>)
    requires Reconstructs(a, proposerAddress, records) && Reconstructs(b, proposerAddress, records)
    ensures a == b
  {
    assert a.validators == b.validators;
    LastProposerUnique(a.proposer, b.proposer, proposerAddress, a.validators);
  }
}
