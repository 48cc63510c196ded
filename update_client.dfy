/**
 * The builder of an IBC `MsgUpdateClient` for a Tendermint light client:
 * it reads the destination's trusted height, takes the source chain's
 * latest signed header, rebuilds the validator sets at the header's height
 * and just above the trusted height, and wraps them into the update message.
 */
module UpdateClient {
  import opened Wrappers
  import opened Revision
  import opened Validators

  /** The fields of a block header this builder reads; the rest is opaque. */
  datatype BlockHeader = BlockHeader(chainId: string, height: nat)

  /** A block header with its commit, which is carried along unread. */
  datatype SignedHeader = SignedHeader(header: BlockHeader, commit: Bytes)

  /**
   * A chain handle. Its queries are given by their results: the latest
   * height a light client holds (by client id), the chain's latest signed
   * header, and, per height, the block's base64 proposer address and the
   * full list of validator records.
   */
  datatype Chain = Chain(
    chainId: string,
    clientId: string,
    signer: string,
    clientLatestHeight: string -> nat,
    latestSignedHeader: SignedHeader,
    proposerAddressAt: nat -> string,
    validatorsAt: nat -> seq<RawValidator>)

  /** The Tendermint light-client header, before protobuf encoding. */
  datatype TmHeader = TmHeader(
    signedHeader: SignedHeader,
    validatorSet: ValidatorSet,
    trustedHeight: Height,
    trustedValidators: ValidatorSet)

  /** A protobuf `Any`: a type URL and the (unencoded) header it wraps. */
  datatype AnyHeader = AnyHeader(typeUrl: string, value: TmHeader)

  datatype MsgUpdateClient = MsgUpdateClient(clientId: string, header: AnyHeader, signer: string)

  /** The message and the height of the header it submits. */
  datatype UpdateResult = UpdateResult(msg: MsgUpdateClient, height: Height)

  const TendermintHeaderTypeUrl: string := "/ibc.lightclients.tendermint.v1.Header"

  /** The latest height the destination's light client trusts. */
  function TrustedHeightOf(dest: Chain): nat
  {
    dest.clientLatestHeight(dest.clientId)
  }

  /** The validator set of `chain` at `height`, rebuilt from its block and validator queries. */
  method GetValidatorSet(chain: Chain, height: nat) returns (vs: ValidatorSet)
    ensures Reconstructs(vs, chain.proposerAddressAt(height), chain.validatorsAt(height))
  {
    vs := BuildValidatorSet(chain.proposerAddressAt(height), chain.validatorsAt(height));
  }

  /**
   * Builds the update of `dest`'s light client of `src`. The current set is
   * fetched at the signed header's height and the trusted set one above the
   * client's latest height; both heights are numbered with the revision of
   * the chain id in the signed header.
   */
  method GenerateMsgUpdateClient(src: Chain, dest: Chain) returns (r: UpdateResult)
    ensures r.msg.clientId == dest.clientId
    ensures r.msg.signer == dest.signer
    ensures r.msg.header.typeUrl == TendermintHeaderTypeUrl
    ensures r.msg.header.value.signedHeader == src.latestSignedHeader
    ensures Reconstructs(r.msg.header.value.validatorSet,
      src.proposerAddressAt(src.latestSignedHeader.header.height),
      src.validatorsAt(src.latestSignedHeader.header.height))
    ensures Reconstructs(r.msg.header.value.trustedValidators,
      src.proposerAddressAt(TrustedHeightOf(dest) + 1),
      src.validatorsAt(TrustedHeightOf(dest) + 1))
    ensures r.msg.header.value.trustedHeight.revisionHeight == TrustedHeightOf(dest)
    ensures r.msg.header.value.trustedHeight.revisionNumber ==
      ParseRevisionNumber(src.latestSignedHeader.header.chainId)
    ensures r.height.revisionHeight == src.latestSignedHeader.header.height
    ensures r.height.revisionNumber == ParseRevisionNumber(src.latestSignedHeader.header.chainId)
  {
    var latestHeight := dest.clientLatestHeight(dest.clientId);
    var signedHeader := src.latestSignedHeader;
    var currentHeight := signedHeader.header.height;
    var validatorSet := GetValidatorSet(src, currentHeight);
    var trustedHeight := GetRevisionHeight(latestHeight, signedHeader.header.chainId);
    var trustedValidators := GetValidatorSet(src, latestHeight + 1);
    var tmHeader := AnyHeader(
      TendermintHeaderTypeUrl,
      TmHeader(signedHeader, validatorSet, trustedHeight, trustedValidators));
    var revisionHeight := GetRevisionHeight(currentHeight, signedHeader.header.chainId);
    r := UpdateResult(MsgUpdateClient(dest.clientId, tmHeader, dest.signer), revisionHeight);
  }

  /**
   * The destination after it accepted an update to `height`: its light
   * client `clientId` now trusts `height`, other clients are unchanged.
   */
  function AfterUpdate(dest: Chain, height: nat): (d: Chain)
    ensures TrustedHeightOf(d) == height
    ensures d.clientId == dest.clientId && d.signer == dest.signer
  {
    dest.(clientLatestHeight := (id: string) => if id == dest.clientId then height else dest.clientLatestHeight(id))
  }

  /**
   * Two updates in a row: when the first header is newer than what the
   * client trusts and the destination then records the first result's
   * height, the second update trusts exactly that height, which is strictly
   * above the first update's trusted height.
   */
  method UpdateTwice(src: Chain, dest: Chain, laterSrc: Chain) returns (first: UpdateResult, second: UpdateResult)
    requires src.latestSignedHeader.header.height > TrustedHeightOf(dest)
    requires laterSrc.latestSignedHeader.header.chainId == src.latestSignedHeader.header.chainId
    ensures second.msg.header.value.trustedHeight == first.height
    ensures second.msg.header.value.trustedHeight.revisionHeight >
      first.msg.header.value.trustedHeight.revisionHeight
    ensures second.msg.header.value.trustedHeight.revisionNumber ==
      first.msg.header.value.trustedHeight.revisionNumber
  {
    first := GenerateMsgUpdateClient(src, dest);
    second := GenerateMsgUpdateClient(laterSrc, AfterUpdate(dest, first.height.revisionHeight));
  }

  /**
   * The destination trusts height 100 and the source's header is at height
   * 150 on chain `test-1`: both heights carry revision 1, and the sets are
   * fetched at 150 and 101.
   */
  method ExampleUpdate(src: Chain, dest: Chain) returns (r: UpdateResult)
    requires src.latestSignedHeader.header == BlockHeader("test-1", 150)
    requires TrustedHeightOf(dest) == 100
    ensures r.msg.header.value.trustedHeight == Height(1, 100)
    ensures r.height == Height(1, 150)
    ensures Reconstructs(r.msg.header.value.validatorSet, src.proposerAddressAt(150), src.validatorsAt(150))
    ensures Reconstructs(r.msg.header.value.trustedValidators, src.proposerAddressAt(101), src.validatorsAt(101))
  {
    r := GenerateMsgUpdateClient(src, dest);
    RevisionExamples();
  }
}
