/**
 * The persisted entities: Link, LinkHit, Owner and ReservedCode, with the column
 * bounds their annotations declare. Times are whole seconds, already in UTC.
 */
module Model {
  import opened Wrappers

  newtype byte = x: int | 0 <= x < 256

  type Time = int

  /** An opaque `rowversion` concurrency token. */
  type RowVersion = seq<byte>

  const SecondsPerDay: int := 86400

  // Column widths declared by the `StringLength` / `MaxLength` annotations.
  const MaxDomain: nat := 255
  const MaxCode: nat := 16
  const MaxTargetUrl: nat := 2048
  const MaxOwnerSub: nat := 128
  const MaxTitle: nat := 256
  const MaxNote: nat := 1024
  const MaxReferer: nat := 2048
  const MaxUserAgent: nat := 512
  const MaxIpHash: nat := 32
  const MaxDisplayName: nat := 256
  const MaxEmail: nat := 256
  const MaxGivenName: nat := 128
  const MaxFamilyName: nat := 128
  const MaxReservedCode: nat := 32
  const MaxReason: nat := 256

  /** A short-code-to-target mapping. `deletedAt` present marks it soft-deleted. */
  datatype Link = Link(
    id: int,
    domain: Option<string>,
    code: string,
    targetUrl: string,
    isEnabled: bool,
    ownerSub: string,
    createdAt: Time,
    activeFrom: Option<Time>,
    activeTo: Option<Time>,
    clicks: int,
    lastAccessAt: Option<Time>,
    title: Option<string>,
    note: Option<string>,
    deletedAt: Option<Time>,
    rowVersion: Option<RowVersion>)
  {
    /** Not soft-deleted. */
    predicate Live() { deletedAt.None? }
  }

  predicate OptFits(s: Option<string>, n: nat) {
    s.None? || |s.value| <= n
  }

  /** Every string and byte column of the link fits its declared width. */
  predicate FitsColumns(l: Link) {
    && OptFits(l.domain, MaxDomain)
    && |l.code| <= MaxCode
    && |l.targetUrl| <= MaxTargetUrl
    && |l.ownerSub| <= MaxOwnerSub
    && OptFits(l.title, MaxTitle)
    && OptFits(l.note, MaxNote)
  }

  /**
   * `new Link { Code, TargetUrl, OwnerSub }` at time `now`: the initialisers of
   * the class give every other property its default.
   */
  function NewLink(code: string, targetUrl: string, ownerSub: string, now: Time): (l: Link)
    ensures l.code == code && l.targetUrl == targetUrl && l.ownerSub == ownerSub
    ensures l.isEnabled && l.clicks == 0 && l.createdAt == now
    ensures l.Live() && l.activeFrom.None? && l.activeTo.None? && l.lastAccessAt.None?
    ensures l.domain.None? && l.title.None? && l.note.None? && l.rowVersion.None?
    ensures FitsColumns(l) <==> |code| <= MaxCode && |targetUrl| <= MaxTargetUrl && |ownerSub| <= MaxOwnerSub
  {
    Link(0, None, code, targetUrl, true, ownerSub, now, None, None, 0, None, None, None, None, None)
  }

  /** One recorded visit of a link. */
  datatype LinkHit = LinkHit(
    id: int,
    linkId: int,
    atUtc: Time,
    referer: Option<string>,
    userAgent: Option<string>,
    remoteIpHash: Option<seq<byte>>,
    isBot: bool)

  predicate HitFitsColumns(h: LinkHit) {
    && OptFits(h.referer, MaxReferer)
    && OptFits(h.userAgent, MaxUserAgent)
    && (h.remoteIpHash.None? || |h.remoteIpHash.value| <= MaxIpHash)
  }

  /** The profile of an external identity, keyed by its subject. */
  datatype Owner = Owner(
    sub: string,
    displayName: Option<string>,
    email: Option<string>,
    givenName: Option<string>,
    familyName: Option<string>,
    updatedAt: Time)

  predicate OwnerFitsColumns(o: Owner) {
    && |o.sub| <= MaxOwnerSub
    && OptFits(o.displayName, MaxDisplayName)
    && OptFits(o.email, MaxEmail)
    && OptFits(o.givenName, MaxGivenName)
    && OptFits(o.familyName, MaxFamilyName)
  }

  /** A code administrators have withheld from self-service creation. */
  datatype ReservedCode = ReservedCode(code: string, reason: Option<string>)

  predicate ReservedFitsColumns(r: ReservedCode) {
    |r.code| <= MaxReservedCode && OptFits(r.reason, MaxReason)
  }
}
