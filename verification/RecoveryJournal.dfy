/** The durable journal of the model service: paths, identities, artifacts and the recovery plan. */
module RecoveryJournal {
  import opened Outcomes

  /**
    A path component. Quarantine names are hashes of a boot identity and a source path; the hash is
    taken as injective and as never colliding with a configured name.
  */
  datatype Name = Plain(text: string) | Quarantine(boot: nat, source: seq<Name>)

  type Path = seq<Name>

  function Parent(p: Path): Path {
    if p == [] then [] else p[..|p| - 1]
  }

  /** `q` is `p` or lies below it. */
  predicate AtOrBelow(q: Path, p: Path) {
    p <= q
  }

  /** Neither path is the other or lies below it. */
  predicate Apart(p: Path, q: Path) {
    !AtOrBelow(p, q) && !AtOrBelow(q, p)
  }

  datatype Kind = Directory | Socket | RegularFile | OtherKind

  /** The operating system's identity of a running host. */
  datatype Identity = Identity(platform: string, host: nat, boot: nat)

  datatype Phase = Active | Clean

  /** A worker scratch directory as `begin` found it. */
  datatype ScratchRecord = ScratchRecord(path: Path, metadata: nat)

  /** One planned move; `metadata` is None for an artifact that was absent when the plan was made. */
  datatype Entry = Entry(source: Path, kind: Kind, metadata: Option<nat>, target: Path)

  datatype Journal = Journal(
    config: nat, identity: Identity, phase: Phase, scratches: seq<ScratchRecord>, plan: Option<seq<Entry>>)
}
