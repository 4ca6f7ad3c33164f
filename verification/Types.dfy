/** The vocabulary shared by every module: identifiers, signatures, notes, accusations and wire messages. */
module Types {

  datatype Option<+T> = None | Some(value: T)

  function ToSet<T>(s: seq<T>): set<T> {
    set x | x in s
  }

  /** A peer identifier: the subject key identifier of its certificate. */
  datatype Id = Id(bytes: string)

  /** The size of a SHA-256 digest, which every accepted identifier must have. */
  const ID_SIZE := 32

  /** The position of an identifier on a ring. One function covers all rings, numbered from 1. */
  type RingHash = (nat, Id) -> int

  ghost predicate Apart(h: RingHash, r: nat, x: Id, y: Id) {
    x != y ==> h(r, x) != h(r, y)
  }

  /** On every ring, distinct identifiers have distinct positions. */
  ghost predicate Injective(h: RingHash) {
    forall r: nat, x: Id, y: Id :: Apart(h, r, x, y)
  }

  // ---------------------------------------------------------------------
  // Signatures. A signature names its signer and the statement it covers;
  // checking one compares both. Which signatures can exist is decided by the
  // network model, where a correct node's signatures come from that node only.
  // ---------------------------------------------------------------------

  datatype Statement =
    | NoteStatement(id: Id, epoch: nat, mask: nat)
    | AccusationStatement(accused: Id, accuser: Id, ringNum: nat, epoch: nat)

  datatype Signature = Signature(signer: Id, statement: Statement)

  predicate Verify(statement: Statement, signature: Signature, key: Id) {
    signature == Signature(key, statement)
  }

  // ---------------------------------------------------------------------
  // Stored records
  // ---------------------------------------------------------------------

  /** A peer's self-signed statement of its epoch and its active rings. */
  datatype Note = Note(id: Id, epoch: nat, mask: nat, signature: Signature) {
    function ToMsg(): NoteMsg {
      NoteMsg(id, epoch, mask, Some(signature))
    }

    /** True when `other` is a later epoch than this note's. */
    predicate IsMoreRecent(other: nat) {
      epoch < other
    }

    predicate Signed() {
      Verify(NoteStatement(id, epoch, mask), signature, id)
    }
  }

  datatype Accusation = Accusation(accused: Id, accuser: Id, ringNum: nat, epoch: nat, signature: Signature) {
    function ToMsg(): AccusationMsg {
      AccusationMsg(accused, accuser, ringNum, epoch, Some(signature))
    }

    predicate IsMoreRecent(other: nat) {
      epoch < other
    }

    predicate Equal(accused: Id, accuser: Id, ringNum: nat, epoch: nat) {
      this.accused == accused && this.accuser == accuser && this.ringNum == ringNum && this.epoch == epoch
    }

    predicate Signed() {
      Verify(AccusationStatement(accused, accuser, ringNum, epoch), signature, accuser)
    }
  }

  /** The parts of an X.509 certificate that the membership code inspects. */
  datatype Certificate = Certificate(id: Id, localityFields: nat, ecdsaKey: bool, caSigned: bool, selfSigned: bool)

  // ---------------------------------------------------------------------
  // Wire messages
  // ---------------------------------------------------------------------

  datatype NoteMsg = NoteMsg(id: Id, epoch: nat, mask: nat, signature: Option<Signature>)

  /** What the generated getters of an absent note return. */
  const NIL_NOTE := NoteMsg(Id(""), 0, 0, None)

  datatype AccusationMsg =
    AccusationMsg(accused: Id, accuser: Id, ringNum: nat, epoch: nat, signature: Option<Signature>)

  /** A gossip request. On the wire an empty host map and an absent one are the same. */
  datatype State = State(hosts: map<Id, nat>, ownNote: NoteMsg)

  datatype Reply = Reply(certificates: seq<Certificate>, notes: seq<NoteMsg>, accusations: seq<AccusationMsg>)

  const EMPTY_REPLY := Reply([], [], [])

  /** Why a handler refused its input; the names follow the error values of the handlers. */
  datatype Outcome =
    | Ok
    | InvalidSignature
    | NoPeer
    | OldNote
    | InvalidMask
    | InvalidAccuser
    | InvalidSelfAccusation
    | AccusationAlreadyExists
    | DisabledRing
    | InvalidEpoch
    | OldEpoch
    | InvalidRing
    | SelfCertificate
    | PeerAlreadyExists
    | NoNote
    | WrongNote
    | InvalidId
    | BadCertificate
    | NotMyNeighbour
    | NoCertificate
}
