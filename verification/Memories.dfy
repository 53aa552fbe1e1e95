/** The memory record of memory.rs, with the fields that the modelled operations read or write. */
module Memories {
  import opened Results

  datatype Kind = Episode | Insight | Revision | Document | Proposition

  /** ULIDs as the 128-bit numbers whose big-endian bytes are the stored ids, so that numeric
      order is byte order. */
  type Id = nat

  type Embedding = seq<real>

  datatype Memory = Memory(
    id: Id,
    content: string,
    importance: real,
    context: map<string, string>,
    entity: Option<string>,
    embedding: Option<Embedding>,
    createdAt: nat,
    updatedAt: nat,
    lastAccessedAt: nat,
    accessCount: nat,
    decayScore: real,
    kind: Kind,
    device: Option<string>,
    logicalClock: nat)
}
