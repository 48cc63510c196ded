# IBC Tendermint update-client builder, modelled in Dafny

This project models the core of a relayer's `MsgUpdateClient` construction
(`src/msgs/updateClient.ts`). Before a relayer submits a newer header of a
source chain to the light client that a destination chain keeps of it, it
has to assemble three things:

- **Revision heights.** An IBC height is a pair (revision number, revision
  height). The revision number is the decimal suffix of a chain id
  `<name>-<n>` with `n` starting 1-9, and 0 when there is no such suffix
  (module `Revision`).
- **Validator sets.** A Tendermint validator set is rebuilt from two query
  results for one height: the block's base64 proposer address and the raw
  validator records. One pass maps each record to a canonical validator,
  picks the `ed25519` or `secp256k1` key variant, adds up the total voting
  power and remembers the proposer. The proposer is the last validator whose
  address, in base64 as in section 4 of RFC 4648, equals the block's
  proposer address (modules `Base64` and `Validators`).
- **The update message.** It holds the signed header, the validator set at
  the header's height, the trusted height and the validator set one block
  above the trusted height. It is addressed to the destination's client id
  and signed by the destination's signer (module `UpdateClient`).

Files: `wrappers.dfy` (Option), `base64.dfy`, `revision.dfy`,
`validators.dfy`, `update_client.dfy`.

Chain queries are modelled by their results, as fields of the `Chain`
datatype:
- the client state's latest height, as a function of the client id;
- the latest signed header;
- the block proposer address, as a function of the height;
- the full validator list, as a function of the height.

In these points the model follows what the code does, which may not be what
a reader of the IBC or Tendermint specifications expects:
- Any key algorithm other than `"ed25519"` becomes `secp256k1`. It is never
  an error.
- When no validator matches the block's proposer address, the proposer stays
  unset (`None`). The code does not fail in that case.
- The revision number of both heights comes from the signed header's chain
  id, not from the chain handle. `Chain.chainId` exists and goes unused.
- A proposer priority of `0` is falsy in JavaScript, so it is dropped like a
  missing one.

## Model

| member | source | states |
|---|---|---|
| Revision.ParseRevisionNumber | src/msgs/updateClient.ts:58-66 | if the pattern `-([1-9][0-9]*)$` matches at position i, the result is the decimal value of the digits after i; the result is positive exactly when such a match exists, and 0 otherwise |
| Revision.RevisionSuffixRoundTrip | src/msgs/updateClient.ts:58-66 | a chain id `<name>-<n>` with n > 0 written in decimal parses back to n, whatever the name holds |
| Revision.RevisionExamples | src/msgs/updateClient.ts:58-66 | `test-1` gives 1, `foo-10` gives 10, `foo-7` gives 7 |
| Revision.NoRevisionExamples | src/msgs/updateClient.ts:58-66 | `foo-0`, `foo-07`, `foo` and `a-1-x` give 0 |
| Revision.GetRevisionHeight | src/msgs/updateClient.ts:68-73 | the revision height is the given height and the revision number is the chain id's parsed revision |
| Base64.Encode | src/msgs/updateClient.ts:101 | the padded encoding of n bytes has 4 * ceil(n / 3) characters |
| Base64.DecodeEncode | src/msgs/updateClient.ts:101 | decoding the base64 text of any byte string gives back that byte string |
| Base64.EncodeInjective | src/msgs/updateClient.ts:101 | equal base64 texts come from equal byte strings, so the string comparison compares addresses |
| Base64.RfcTestVectors | src/msgs/updateClient.ts:101 | the encoder produces the expected texts for `f`, `fo`, `foo` and `foobar` (section 10 of RFC 4648) |
| Validators.ConvertPubKey | src/msgs/updateClient.ts:88-95 | the variant is ed25519 exactly when the algorithm is `"ed25519"`, and secp256k1 for every other algorithm; the key bytes are copied unchanged |
| Validators.MapValidator | src/msgs/updateClient.ts:86-100 | address and voting power are copied; the key variant follows the algorithm and keeps the bytes; the proposer priority is present exactly when the record's is truthy, and then equal to it |
| Validators.BuildValidatorSet | src/msgs/updateClient.ts:83-112 | the validators are the records mapped one to one in order; the total is the sum of their voting power; the proposer is the last validator whose address encodes to the block's proposer address, and it is set exactly when some validator matches; a set proposer is a member whose address decodes from the proposer address |
| Validators.ProposerFacts | src/msgs/updateClient.ts:101-103 | a last-match proposer is set exactly when some validator matches, and then it is a member of the list whose address is the decoded proposer address |
| Validators.MatchingAddressesAgree | src/msgs/updateClient.ts:101 | two validators that both match the proposer address have the same address |
| Validators.LastProposerUnique | src/msgs/updateClient.ts:101-103 | the last-match proposer of a list is unique |
| Validators.ReconstructionUnique | src/msgs/updateClient.ts:85-112 | two validator sets that both reconstruct the same proposer address and records are equal |
| Validators.TotalPowerOfMapped | src/msgs/updateClient.ts:84-104 | the total over the mapped validators equals the sum of the raw records' voting power |
| UpdateClient.GetValidatorSet | src/msgs/updateClient.ts:75-82 | the result reconstructs the chain's proposer address and validator records at the given height |
| UpdateClient.GenerateMsgUpdateClient | src/msgs/updateClient.ts:11-56 | the message goes to the destination's client id with its signer and the Tendermint header type URL; it carries the source's signed header unchanged; the current set is rebuilt at the header's height and the trusted set at the client's latest height + 1; the trusted height and the result height are the client's latest height and the header's height, both with the revision of the header's chain id |
| UpdateClient.UpdateTwice | src/msgs/updateClient.ts:18-54 | after the destination records the first result's height, a second update trusts exactly that height, with the same revision number and strictly above the first update's trusted height |
| UpdateClient.ExampleUpdate | src/msgs/updateClient.ts:18-46 | trusted height 100 and header height 150 on `test-1` give heights (1, 100) and (1, 150), with the sets rebuilt at 150 and 101 |

## Left out

- Chain queries (`lcd.ibc.clientState`, `lcd.tendermint.blockInfo`, `rpc.validatorsAll`, `getSignedHeader`) are given by their results. Their failures are not modelled: the code has no handling for them, and an error in any of them ends the call unchanged.
- `src/lib/config.ts` reads and parses a configuration file. That is I/O with no logic, and it is not part of this model.
- The async sequencing is left out. The steps run in the order the code awaits them, and there is no concurrency.
- Protobuf encoding (`Header.encode`, `Header.fromPartial`, `ValidatorSet.fromPartial`) is left out. The header's `value` is kept as its unencoded fields. The `MsgUpdateClient` constructor is a record of its three arguments.
- Signed headers are opaque apart from the chain id and the height. The commit is carried as bytes and never read.
- The signer is the destination's `wallet.address()`, modelled as an opaque string.
- `Number(...)` turns heights into float64 values. Heights here are unbounded naturals, so the model does not lose precision above 2^53.
- `latestHeight + 1` is exact here, with no float rounding.
- Voting powers are unbounded integers, as JavaScript `bigint` is. The int64 range check of protobuf encoding is not modelled.
- The key-data and address types come from the query layer, which is not part of this model. Addresses and key bytes are taken to be byte strings that are always present.
