/**
 The TLS key, signing request and certificate life cycle of a unit, over its secret store.

 Keys, signing requests and certificates are opaque texts. Which request was made with which key, and
 which certificate was signed for which request, is kept beside the state: nothing in the code reads it.
 */
module Tls {
  import opened Wrappers
  import Secrets
  import Text

  datatype Kind = KeyKind | CsrKind | CertKind | CaKind | ChainKind

  function KindLabel(kind: Kind): string {
    match kind
    case KeyKind => "key-secret"
    case CsrKind => "csr-secret"
    case CertKind => "cert-secret"
    case CaKind => "ca-secret"
    case ChainKind => "chain-secret"
  }

  function Label(internal: bool, kind: Kind): string {
    (if internal then "int" else "ext") + "-" + KindLabel(kind)
  }

  lemma KindLabelsDiffer(a: Kind, b: Kind)
    requires KindLabel(a) == KindLabel(b)
    ensures a == b
  {
    assert KindLabel(a)[0] == KindLabel(b)[0] && KindLabel(a)[1] == KindLabel(b)[1];
  }

  /** The ten labels of a unit's TLS secrets are pairwise different. */
  lemma LabelsDiffer(i: bool, a: Kind, j: bool, b: Kind)
    requires Label(i, a) == Label(j, b)
    ensures i == j && a == b
  {
    assert Label(i, a)[0] == Label(j, b)[0];
    assert KindLabel(a) == Label(i, a)[4..] && KindLabel(b) == Label(j, b)[4..];
    KindLabelsDiffer(a, b);
  }

  // ---- Reading and writing the store ---------------------------------------------------------------

  function GetSecret(store: Secrets.Store, internal: bool, kind: Kind): Option<string> {
    Secrets.Lookup(store, Secrets.UnitScope, Label(internal, kind))
  }

  function SetSecret(store: Secrets.Store, internal: bool, kind: Kind, contents: Option<string>): Secrets.Store {
    if contents == None || contents.value == "" then Secrets.Delete(store, Secrets.UnitScope, Label(internal, kind))
    else Secrets.Put(store, Secrets.UnitScope, Label(internal, kind), contents.value)
  }

  /** What reading gives back after writing `contents`. */
  function Readable(contents: Option<string>): Option<string> {
    if contents.Some? && Secrets.Storable(contents.value) then contents else None
  }

  lemma SetThenGet(store: Secrets.Store, internal: bool, kind: Kind, contents: Option<string>)
    requires Secrets.StorableStore(store)
    ensures Secrets.StorableStore(SetSecret(store, internal, kind, contents))
    ensures forall j, k :: GetSecret(SetSecret(store, internal, kind, contents), j, k)
                           == if j == internal && k == kind then Readable(contents) else GetSecret(store, j, k)
  {
    forall j, k | j != internal || k != kind
      ensures Label(j, k) != Label(internal, kind)
    {
      if Label(j, k) == Label(internal, kind) {
        LabelsDiffer(j, k, internal, kind);
      }
    }
  }

  // ---- The unit and its certificate provider ---------------------------------------------------------

  datatype Request = Request(internal: bool, key: string, ips: set<string>)

  /**
   `made` and `signed` record where texts came from: the request behind a stripped CSR, and the stripped
   CSR behind a stripped certificate.
   */
  datatype World = World(
    store: Secrets.Store,
    waiting: map<bool, bool>,
    related: bool,
    made: map<string, Request>,
    signed: map<string, string>)
  {
    function Get(internal: bool, kind: Kind): Option<string> {
      GetSecret(store, internal, kind)
    }

    predicate Waiting(internal: bool) {
      internal in waiting && waiting[internal]
    }

    predicate Enabled(internal: bool) {
      related && Get(internal, CertKind).Some?
    }
  }

  datatype Error = UnknownCertificateAvailable | UnknownCertificateExpiring | NonExistentCertificate

  /** A new key pair for one side, and its request; the caller then marks the side as waiting. */
  function Requested(w: World, internal: bool, key: string, csr: string, ips: set<string>): World {
    var s1 := SetSecret(w.store, internal, KeyKind, Some(key));
    var s2 := SetSecret(s1, internal, CsrKind, Some(csr));
    w.(store := SetSecret(s2, internal, CertKind, None),
       waiting := w.waiting[internal := true],
       made := w.made[Text.RStrip(csr) := Request(internal, key, ips)])
  }

  /** A new request under the key in use. */
  function Renewed(w: World, internal: bool, csr: string, ips: set<string>): Result<World, Error> {
    var key := w.Get(internal, KeyKind);
    var previous := w.Get(internal, CsrKind);
    if key == None || key.value == "" || previous == None || previous.value == "" then Err(NonExistentCertificate)
    else
      Ok(w.(store := SetSecret(w.store, internal, CsrKind, Some(csr)),
            waiting := w.waiting[internal := true],
            made := w.made[Text.RStrip(csr) := Request(internal, key.value, ips)]))
  }

  predicate IsFor(w: World, csr: string, internal: bool) {
    var current := w.Get(internal, CsrKind);
    current.Some? && current.value != "" && Text.RStrip(csr) == Text.RStrip(current.value)
  }

  function Installed(
      w: World, internal: bool, chain: Option<seq<string>>, cert: Option<string>, ca: Option<string>): World
  {
    var s1 := SetSecret(w.store, internal, ChainKind, if chain.Some? then Some(Text.Join(chain.value, '\n')) else None);
    var s2 := SetSecret(s1, internal, CertKind, cert);
    w.(store := SetSecret(s2, internal, CaKind, ca), waiting := w.waiting[internal := false])
  }

  /** A certificate arrives: the external request is compared first. */
  function Available(w: World, csr: string, chain: Option<seq<string>>, cert: Option<string>, ca: Option<string>)
    : Result<World, Error>
  {
    if IsFor(w, csr, false) then Ok(Installed(w, false, chain, cert, ca))
    else if IsFor(w, csr, true) then Ok(Installed(w, true, chain, cert, ca))
    else Err(UnknownCertificateAvailable)
  }

  function CertOrEmpty(w: World, internal: bool): string {
    var cert := w.Get(internal, CertKind);
    if cert.Some? then cert.value else ""
  }

  function Expiring(w: World, cert: string, csr: string, ips: set<string>): Result<World, Error> {
    if Text.RStrip(cert) == Text.RStrip(CertOrEmpty(w, false)) then Renewed(w, false, csr, ips)
    else if Text.RStrip(cert) == Text.RStrip(CertOrEmpty(w, true)) then Renewed(w, true, csr, ips)
    else Err(UnknownCertificateExpiring)
  }

  function ClearedSide(store: Secrets.Store, internal: bool): Secrets.Store {
    SetSecret(SetSecret(SetSecret(store, internal, CaKind, None), internal, CertKind, None), internal, ChainKind, None)
  }

  /** The relation with the provider is broken: certificates go, keys, requests and waiting flags stay. */
  function Disabled(w: World): World {
    w.(store := ClearedSide(ClearedSide(w.store, true), false))
  }

  /** The addresses in the certificate of a side, as its request named them. */
  function CertifiedIps(w: World, internal: bool): set<string> {
    var cert := CertOrEmpty(w, internal);
    if w.Enabled(internal) && Text.RStrip(cert) in w.signed && w.signed[Text.RStrip(cert)] in w.made
    then w.made[w.signed[Text.RStrip(cert)]].ips else {}
  }

  function SansRefreshed(w: World, internal: bool, csr: string, ips: set<string>): Result<World, Error> {
    if w.Waiting(internal) then Ok(w)
    else if CertifiedIps(w, internal) == (if w.Enabled(internal) then ips else {}) then Ok(w)
    else Renewed(w, internal, csr, ips)
  }

  datatype Step =
    | RequestStep(internal: bool, key: string, csr: string, ips: set<string>)
    | SignStep(csr: string, cert: string)
    | AvailableStep(csr: string, chain: Option<seq<string>>, certificate: Option<string>, ca: Option<string>)
    | ExpiringStep(cert: string, csr: string, ips: set<string>)
    | SansStep(internal: bool, csr: string, ips: set<string>)
    | DisableStep
    | RelationStep(related: bool)

  /** Each generated request carries a unique identifier, so its text is new. */
  predicate NewCsr(w: World, csr: string) {
    Secrets.Storable(csr) && Text.RStrip(csr) !in w.made
  }

  /**
   The provider signs requests that were made, and a certificate comes with the request it was signed for:
   at any time, in any order, more than once, or never.
   */
  predicate Possible(w: World, step: Step) {
    match step
    case RequestStep(_, key, csr, _) => Secrets.Storable(key) && NewCsr(w, csr)
    case SignStep(csr, cert) => Text.RStrip(csr) in w.made && Text.RStrip(cert) !in w.signed && Text.RStrip(cert) != ""
    case AvailableStep(csr, _, cert, _) =>
      cert.Some? ==> Text.RStrip(cert.value) in w.signed && w.signed[Text.RStrip(cert.value)] == Text.RStrip(csr)
    case ExpiringStep(_, csr, _) => NewCsr(w, csr)
    case SansStep(_, csr, _) => NewCsr(w, csr)
    case DisableStep => true
    case RelationStep(_) => true
  }

  /** A hook that raises leaves everything as it was. */
  function OrUnchanged(w: World, r: Result<World, Error>): World {
    if r.Ok? then r.value else w
  }

  function Apply(w: World, step: Step): World {
    match step
    case RequestStep(i, key, csr, ips) => Requested(w, i, key, csr, ips)
    case SignStep(csr, cert) => w.(signed := w.signed[Text.RStrip(cert) := Text.RStrip(csr)])
    case AvailableStep(csr, chain, cert, ca) => OrUnchanged(w, Available(w, csr, chain, cert, ca))
    case ExpiringStep(cert, csr, ips) => OrUnchanged(w, Expiring(w, cert, csr, ips))
    case SansStep(i, csr, ips) => OrUnchanged(w, SansRefreshed(w, i, csr, ips))
    case DisableStep => Disabled(w)
    case RelationStep(r) => w.(related := r)
  }

  predicate IsRun(w: World, steps: seq<Step>)
    decreases |steps|
  {
    steps == [] || (Possible(w, steps[0]) && IsRun(Apply(w, steps[0]), steps[1..]))
  }

  function After(w: World, steps: seq<Step>): World
    decreases |steps|
  {
    if steps == [] then w else After(Apply(w, steps[0]), steps[1..])
  }

  predicate Fresh(w: World) {
    Secrets.StorableStore(w.store)
    && (forall i, k :: w.Get(i, k) == None) && w.made == map[] && w.signed == map[] && w.waiting == map[]
  }

  // ---- What every run keeps -----------------------------------------------------------------------------

  /** The stored request was made for this side with the stored key. */
  predicate RequestMatches(w: World, i: bool) {
    var key, csr := w.Get(i, KeyKind), w.Get(i, CsrKind);
    csr.Some? ==>
      key.Some? && Text.RStrip(csr.value) in w.made
      && w.made[Text.RStrip(csr.value)].internal == i && w.made[Text.RStrip(csr.value)].key == key.value
  }

  /** The stored certificate was signed for a request made for this side with the stored key. */
  predicate CertificateMatches(w: World, i: bool) {
    var key, cert := w.Get(i, KeyKind), w.Get(i, CertKind);
    cert.Some? ==>
      key.Some? && Text.RStrip(cert.value) in w.signed && w.signed[Text.RStrip(cert.value)] in w.made
      && w.made[w.signed[Text.RStrip(cert.value)]].internal == i
      && w.made[w.signed[Text.RStrip(cert.value)]].key == key.value
  }

  /** Unless a new one is awaited, it is the certificate of the stored request. */
  predicate CertificateCurrent(w: World, i: bool) {
    var csr, cert := w.Get(i, CsrKind), w.Get(i, CertKind);
    cert.Some? ==>
      csr.Some? && (!w.Waiting(i) ==>
              Text.RStrip(cert.value) in w.signed && w.signed[Text.RStrip(cert.value)] == Text.RStrip(csr.value))
  }

  predicate SideInv(w: World, i: bool) {
    RequestMatches(w, i) && CertificateMatches(w, i) && CertificateCurrent(w, i)
  }

  predicate Inv(w: World) {
    && Secrets.StorableStore(w.store) && (forall i :: SideInv(w, i))
    && (forall c :: c in w.signed ==> w.signed[c] in w.made)
  }

  lemma RequestedReads(w: World, internal: bool, key: string, csr: string, ips: set<string>)
    requires Secrets.StorableStore(w.store) && Secrets.Storable(key) && Secrets.Storable(csr)
    ensures Secrets.StorableStore(Requested(w, internal, key, csr, ips).store)
    ensures forall j :: Requested(w, internal, key, csr, ips).Waiting(j) == (j == internal || w.Waiting(j))
    ensures forall j, k :: Requested(w, internal, key, csr, ips).Get(j, k)
                           == if j != internal then w.Get(j, k)
                              else match k
                                   case KeyKind => Some(key)
                                   case CsrKind => Some(csr)
                                   case CertKind => None
                                   case _ => w.Get(j, k)
  {
    var s1 := SetSecret(w.store, internal, KeyKind, Some(key));
    SetThenGet(w.store, internal, KeyKind, Some(key));
    SetThenGet(s1, internal, CsrKind, Some(csr));
    SetThenGet(SetSecret(s1, internal, CsrKind, Some(csr)), internal, CertKind, None);
  }

  /** Another request in `made` changes nothing for a side whose secrets are untouched. */
  lemma OtherSideKeeps(w: World, after: World, i: bool)
    requires Inv(w) && after.signed == w.signed
    requires forall k :: after.Get(i, k) == w.Get(i, k)
    requires after.Waiting(i) == w.Waiting(i)
    requires forall c :: c in w.made ==> c in after.made && after.made[c] == w.made[c]
    ensures SideInv(after, i)
  {
    assert SideInv(w, i);
  }

  lemma RequestedKeeps(w: World, internal: bool, key: string, csr: string, ips: set<string>)
    requires Inv(w) && Secrets.Storable(key) && NewCsr(w, csr)
    ensures Inv(Requested(w, internal, key, csr, ips))
  {
    var after := Requested(w, internal, key, csr, ips);
    RequestedReads(w, internal, key, csr, ips);
    assert SideInv(after, internal);
    OtherSideKeeps(w, after, !internal);
  }

  lemma RenewedReads(w: World, internal: bool, csr: string, ips: set<string>)
    requires Secrets.StorableStore(w.store) && Secrets.Storable(csr)
    ensures Renewed(w, internal, csr, ips).Ok? <==>
            Secrets.Storable(CsrOrEmpty(w, internal)) && w.Get(internal, KeyKind).Some?
                && w.Get(internal, KeyKind).value != ""
    ensures Secrets.StorableStore(OrUnchanged(w, Renewed(w, internal, csr, ips)).store)
    ensures Renewed(w, internal, csr, ips).Ok? ==>
              forall j, k :: Renewed(w, internal, csr, ips).value.Get(j, k)
                             == if j == internal && k == CsrKind then Some(csr) else w.Get(j, k)
  {
    SetThenGet(w.store, internal, CsrKind, Some(csr));
  }

  function CsrOrEmpty(w: World, internal: bool): string {
    var csr := w.Get(internal, CsrKind);
    if csr.Some? then csr.value else ""
  }

  lemma RenewedKeeps(w: World, internal: bool, csr: string, ips: set<string>)
    requires Inv(w) && NewCsr(w, csr)
    ensures Inv(OrUnchanged(w, Renewed(w, internal, csr, ips)))
  {
    var after := OrUnchanged(w, Renewed(w, internal, csr, ips));
    RenewedReads(w, internal, csr, ips);
    if Renewed(w, internal, csr, ips).Ok? {
      assert SideInv(w, internal);
      assert SideInv(after, internal);
      OtherSideKeeps(w, after, !internal);
      }
  }

  lemma InstalledReads(w: World, internal: bool, chain: Option<seq<string>>, cert: Option<string>, ca: Option<string>)
    requires Secrets.StorableStore(w.store)
    ensures Secrets.StorableStore(Installed(w, internal, chain, cert, ca).store)
    ensures forall j, k :: Installed(w, internal, chain, cert, ca).Get(j, k)
                           == if j != internal then w.Get(j, k)
                              else match k
                                   case CertKind => Readable(cert)
                                   case CaKind => Readable(ca)
                                   case ChainKind =>
                                     if chain.Some? then Readable(Some(Text.Join(chain.value, '\n'))) else None
                                   case _ => w.Get(j, k)
  {
    var text := if chain.Some? then Some(Text.Join(chain.value, '\n')) else None;
    var s1 := SetSecret(w.store, internal, ChainKind, text);
    SetThenGet(w.store, internal, ChainKind, text);
    SetThenGet(s1, internal, CertKind, cert);
    SetThenGet(SetSecret(s1, internal, CertKind, cert), internal, CaKind, ca);
  }

  lemma InstalledKeeps(
      w: World, internal: bool, csr: string, chain: Option<seq<string>>, cert: Option<string>, ca: Option<string>)
    requires Inv(w) && IsFor(w, csr, internal) && Possible(w, AvailableStep(csr, chain, cert, ca))
    ensures Inv(Installed(w, internal, chain, cert, ca))
  {
    InstalledReads(w, internal, chain, cert, ca);
    forall i ensures SideInv(Installed(w, internal, chain, cert, ca), i) {
      assert SideInv(w, i);
    }
  }

  lemma ClearedReads(store: Secrets.Store, internal: bool)
    requires Secrets.StorableStore(store)
    ensures Secrets.StorableStore(ClearedSide(store, internal))
    ensures forall j, k :: GetSecret(ClearedSide(store, internal), j, k)
                           == if j == internal && k != KeyKind && k != CsrKind then None else GetSecret(store, j, k)
  {
    var s1 := SetSecret(store, internal, CaKind, None);
    SetThenGet(store, internal, CaKind, None);
    SetThenGet(s1, internal, CertKind, None);
    SetThenGet(SetSecret(s1, internal, CertKind, None), internal, ChainKind, None);
  }

  lemma DisabledReads(w: World)
    requires Secrets.StorableStore(w.store)
    ensures Secrets.StorableStore(Disabled(w).store)
    ensures Disabled(w).waiting == w.waiting && Disabled(w).related == w.related
    ensures forall j, k :: Disabled(w).Get(j, k) == if k == KeyKind || k == CsrKind then w.Get(j, k) else None
  {
    ClearedReads(w.store, true);
    ClearedReads(ClearedSide(w.store, true), false);
  }

  lemma AvailableKeeps(w: World, csr: string, chain: Option<seq<string>>, cert: Option<string>, ca: Option<string>)
    requires Inv(w) && Possible(w, AvailableStep(csr, chain, cert, ca))
    ensures Inv(OrUnchanged(w, Available(w, csr, chain, cert, ca)))
  {
    if IsFor(w, csr, false) {
      InstalledKeeps(w, false, csr, chain, cert, ca);
    } else if IsFor(w, csr, true) {
      InstalledKeeps(w, true, csr, chain, cert, ca);
    }
  }

  lemma ExpiringKeeps(w: World, cert: string, csr: string, ips: set<string>)
    requires Inv(w) && NewCsr(w, csr)
    ensures Inv(OrUnchanged(w, Expiring(w, cert, csr, ips)))
  {
    RenewedKeeps(w, false, csr, ips);
    RenewedKeeps(w, true, csr, ips);
  }

  lemma SansKeeps(w: World, internal: bool, csr: string, ips: set<string>)
    requires Inv(w) && NewCsr(w, csr)
    ensures Inv(OrUnchanged(w, SansRefreshed(w, internal, csr, ips)))
  {
    RenewedKeeps(w, internal, csr, ips);
  }

  lemma SignedKeeps(w: World, csr: string, cert: string)
    requires Inv(w) && Possible(w, SignStep(csr, cert))
    ensures Inv(w.(signed := w.signed[Text.RStrip(cert) := Text.RStrip(csr)]))
  {
    var after := w.(signed := w.signed[Text.RStrip(cert) := Text.RStrip(csr)]);
    forall i ensures SideInv(after, i) {
      assert SideInv(w, i);
    }
  }

  lemma DisabledKeeps(w: World)
    requires Inv(w)
    ensures Inv(Disabled(w))
  {
    DisabledReads(w);
    forall i ensures SideInv(Disabled(w), i) {
      assert SideInv(w, i);
    }
  }

  lemma RelationKeeps(w: World, related: bool)
    requires Inv(w)
    ensures Inv(w.(related := related))
  {
    forall i ensures SideInv(w.(related := related), i) {
      assert SideInv(w, i);
    }
  }

  /** Every hook, and every step of the provider, keeps certificates, requests and keys matched. */
  lemma StepKeeps(w: World, step: Step)
    requires Inv(w) && Possible(w, step)
    ensures Inv(Apply(w, step))
  {
    match step {
      case RequestStep(i, key, csr, ips) => RequestedKeeps(w, i, key, csr, ips);
      case SignStep(csr, cert) => SignedKeeps(w, csr, cert);
      case AvailableStep(csr, chain, cert, ca) => AvailableKeeps(w, csr, chain, cert, ca);
      case ExpiringStep(cert, csr, ips) => ExpiringKeeps(w, cert, csr, ips);
      case SansStep(i, csr, ips) => SansKeeps(w, i, csr, ips);
      case DisableStep => DisabledKeeps(w);
      case RelationStep(related) => RelationKeeps(w, related);
    }
  }

  lemma {:induction false} RunKeeps(w: World, steps: seq<Step>)
    requires Inv(w) && IsRun(w, steps)
    ensures Inv(After(w, steps))
    decreases |steps|
  {
    if steps != [] {
      StepKeeps(w, steps[0]);
      RunKeeps(Apply(w, steps[0]), steps[1..]);
    }
  }

  lemma FreshInv(w: World)
    requires Fresh(w)
    ensures Inv(w)
  {
    forall i ensures SideInv(w, i) {
      assert w.Get(i, CsrKind) == None && w.Get(i, CertKind) == None;
    }
  }

  /** From a unit without TLS secrets, whatever happens: a stored certificate belongs to the stored key. */
  lemma CertificateBelongsToKey(w: World, steps: seq<Step>, internal: bool)
    requires Fresh(w) && IsRun(w, steps)
    ensures CertificateMatches(After(w, steps), internal)
    ensures CertificateCurrent(After(w, steps), internal)
  {
    FreshInv(w);
    RunKeeps(w, steps);
    assert SideInv(After(w, steps), internal);
  }

  // ---- The files the database reads ---------------------------------------------------------------------

  /** The CA file and the PEM file of a side. */
  function TlsFiles(w: World, internal: bool): (Option<string>, Option<string>) {
    if !w.Enabled(internal) then (None, None)
    else
      var ca, chain := w.Get(internal, CaKind), w.Get(internal, ChainKind);
      var key, cert := w.Get(internal, KeyKind), w.Get(internal, CertKind);
      (if chain.Some? && chain.value != "" then chain else ca,
       if cert.Some? && cert.value != "" then
         Some(if key.Some? && key.value != "" then key.value + "\n" + cert.value else cert.value)
       else key)
  }

  lemma ReadsAreStorable(w: World, internal: bool, kind: Kind)
    requires Secrets.StorableStore(w.store)
    ensures w.Get(internal, kind).Some? ==> Secrets.Storable(w.Get(internal, kind).value)
  {
  }

  /** The PEM file of an enabled side is never half a pair: the stored key, then a certificate signed for it. */
  lemma PemFileHoldsMatchingPair(w: World, steps: seq<Step>, internal: bool)
    requires Fresh(w) && IsRun(w, steps) && After(w, steps).Enabled(internal)
    ensures var u := After(w, steps);
            exists key, cert :: TlsFiles(u, internal).1 == Some(key + "\n" + cert)
              && Text.RStrip(cert) in u.signed && u.signed[Text.RStrip(cert)] in u.made
              && u.made[u.signed[Text.RStrip(cert)]].key == key
              && u.made[u.signed[Text.RStrip(cert)]].internal == internal
  {
    FreshInv(w);
    RunKeeps(w, steps);
    var u := After(w, steps);
    assert SideInv(u, internal);
    ReadsAreStorable(u, internal, KeyKind);
    ReadsAreStorable(u, internal, CertKind);
    var key, cert := u.Get(internal, KeyKind).value, u.Get(internal, CertKind).value;
    assert TlsFiles(u, internal).1 == Some(key + "\n" + cert);
  }

  /**
   The files after a certificate was installed: its chain, or its CA if it came without one, and the stored key
   followed by the certificate.  A side that is not enabled has no files.
   */
  lemma InstalledFiles(
      w: World, internal: bool, chain: Option<seq<string>>, cert: string, ca: Option<string>, key: string)
    requires Secrets.StorableStore(w.store) && Secrets.Storable(cert) && w.Get(internal, KeyKind) == Some(key)
    ensures var u := Installed(w, internal, chain, Some(cert), ca);
            if !w.related then TlsFiles(u, internal) == (None, None)
            else
              && TlsFiles(u, internal).1 == Some(key + "\n" + cert)
              && (chain.Some? && Secrets.Storable(Text.Join(chain.value, '\n')) ==>
                    TlsFiles(u, internal).0 == Some(Text.Join(chain.value, '\n')))
              && (chain == None && ca.Some? && Secrets.Storable(ca.value) ==> TlsFiles(u, internal).0 == ca)
  {
    InstalledReads(w, internal, chain, Some(cert), ca);
    ReadsAreStorable(w, internal, KeyKind);
  }

  // ---- Late, repeated and unknown certificates ------------------------------------------------------------

  /** A certificate goes to the side its request was made for, and only if that request is still the stored one. */
  lemma CertificateTakenExactlyIfCurrent(
      w: World, csr: string, chain: Option<seq<string>>, cert: Option<string>, ca: Option<string>, internal: bool)
    requires Inv(w) && Text.RStrip(csr) in w.made && w.made[Text.RStrip(csr)].internal == internal
    ensures Available(w, csr, chain, cert, ca)
            == if w.Get(internal, CsrKind).Some? && Text.RStrip(csr) == Text.RStrip(w.Get(internal, CsrKind).value)
               then Ok(Installed(w, internal, chain, cert, ca)) else Err(UnknownCertificateAvailable)
  {
    ReadsAreStorable(w, true, CsrKind);
    ReadsAreStorable(w, false, CsrKind);
    assert SideInv(w, true) && SideInv(w, false);
  }

  /** Were both sides concerned, the external one is served, by certificates as by renewals. */
  lemma ExternalSideFirst(
      w: World, csr: string, chain: Option<seq<string>>, cert: Option<string>, ca: Option<string>,
      expiring: string, request: string, ips: set<string>)
    ensures IsFor(w, csr, false) ==> Available(w, csr, chain, cert, ca) == Ok(Installed(w, false, chain, cert, ca))
    ensures Text.RStrip(expiring) == Text.RStrip(CertOrEmpty(w, false)) ==>
              Expiring(w, expiring, request, ips) == Renewed(w, false, request, ips)
  {
  }

  /**
   Breaking the relation does not withdraw the requests: a certificate still on its way when TLS is disabled
   is stored again, in exactly the cases in which it would have been before.
   */
  lemma DisablingKeepsRequestsOpen(w: World, csr: string, chain: Option<seq<string>>, cert: string, ca: Option<string>)
    requires Inv(w) && Secrets.Storable(cert)
    ensures Available(Disabled(w), csr, chain, Some(cert), ca).Ok? <==> IsFor(w, csr, false) || IsFor(w, csr, true)
    ensures IsFor(w, csr, false) ==>
              OrUnchanged(Disabled(w), Available(Disabled(w), csr, chain, Some(cert), ca)).Get(false, CertKind)
                  == Some(cert)
    ensures IsFor(w, csr, true) && !IsFor(w, csr, false) ==>
              OrUnchanged(Disabled(w), Available(Disabled(w), csr, chain, Some(cert), ca)).Get(true, CertKind)
                  == Some(cert)
  {
    DisabledReads(w);
    InstalledReads(Disabled(w), false, chain, Some(cert), ca);
    InstalledReads(Disabled(w), true, chain, Some(cert), ca);
  }

  // ---- Renewal --------------------------------------------------------------------------------------------

  /**
   An expiring certificate that is stored is renewed: asking never fails for want of a key or a request.
   Only a blank certificate, which equals the absence of one, can ask to renew what does not exist.
   */
  lemma StoredCertificatesRenew(w: World, cert: string, csr: string, ips: set<string>)
    requires Inv(w) && NewCsr(w, csr) && Text.RStrip(cert) != ""
    ensures Expiring(w, cert, csr, ips).Ok? <==>
            exists i :: w.Get(i, CertKind).Some? && Text.RStrip(w.Get(i, CertKind).value) == Text.RStrip(cert)
    ensures Expiring(w, cert, csr, ips) != Err(NonExistentCertificate)
  {
    forall i
      ensures w.Get(i, CertKind).Some? ==> Renewed(w, i, csr, ips).Ok?
    {
      assert SideInv(w, i);
      ReadsAreStorable(w, i, KeyKind);
      ReadsAreStorable(w, i, CsrKind);
    }
    if Text.RStrip(cert) == Text.RStrip(CertOrEmpty(w, false)) {
      assert w.Get(false, CertKind).Some?;
    } else if Text.RStrip(cert) == Text.RStrip(CertOrEmpty(w, true)) {
      assert w.Get(true, CertKind).Some?;
    }
  }

  lemma ExpiringIsForItsSide(w: World, internal: bool, csr: string, ips: set<string>)
    requires Inv(w) && w.Get(internal, CertKind).Some? && NewCsr(w, csr)
    requires Text.RStrip(CertOrEmpty(w, internal)) != ""
    ensures Expiring(w, CertOrEmpty(w, internal), csr, ips) == Renewed(w, internal, csr, ips)
    ensures Renewed(w, internal, csr, ips).Ok?
  {
    assert SideInv(w, true) && SideInv(w, false);
    ReadsAreStorable(w, internal, KeyKind);
    ReadsAreStorable(w, internal, CsrKind);
  }

  /**
   Renewal, end to end: the expiring certificate of a side is replaced by the one signed for the new request,
   under the same key, and the other side does not notice.
   */
  lemma RenewalCompletes(
      w: World, internal: bool, csr: string, ips: set<string>, cert: string,
      chain: Option<seq<string>>, ca: Option<string>)
    returns (steps: seq<Step>)
    requires Inv(w) && w.Get(internal, CertKind).Some? && Text.RStrip(CertOrEmpty(w, internal)) != "" && NewCsr(w, csr)
    requires Secrets.Storable(cert) && Text.RStrip(cert) != "" && Text.RStrip(cert) !in w.signed
    ensures steps == [ExpiringStep(CertOrEmpty(w, internal), csr, ips), SignStep(csr, cert),
                      AvailableStep(csr, chain, Some(cert), ca)]
    ensures IsRun(w, steps)
    ensures var u := After(w, steps);
            && u.Get(internal, CertKind) == Some(cert) && u.Get(internal, CsrKind) == Some(csr)
            && u.Get(internal, KeyKind) == w.Get(internal, KeyKind) && !u.Waiting(internal)
            && (w.related ==> CertifiedIps(u, internal) == ips)
            && (forall j, k :: j != internal ==> u.Get(j, k) == w.Get(j, k))
            && (forall j :: j != internal ==> u.Waiting(j) == w.Waiting(j))
  {
    var asked := RenewalAsks(w, internal, csr, ips, cert);
    RenewalInstalls(asked, internal, csr, cert, chain, ca);
    steps := [ExpiringStep(CertOrEmpty(w, internal), csr, ips), SignStep(csr, cert),
              AvailableStep(csr, chain, Some(cert), ca)];
    ThreeSteps(w, steps);
    assert After(w, steps) == Installed(asked, internal, chain, Some(cert), ca);
  }

  /** The last step of a renewal: the certificate arrives. */
  lemma RenewalInstalls(
      asked: World, internal: bool, csr: string, cert: string, chain: Option<seq<string>>, ca: Option<string>)
    requires Inv(asked) && asked.Get(internal, CsrKind) == Some(csr) && Secrets.Storable(cert)
    requires Text.RStrip(csr) in asked.made && asked.made[Text.RStrip(csr)].internal == internal
    ensures Available(asked, csr, chain, Some(cert), ca) == Ok(Installed(asked, internal, chain, Some(cert), ca))
    ensures var u := Installed(asked, internal, chain, Some(cert), ca);
            && u.Get(internal, CertKind) == Some(cert) && u.Get(internal, CsrKind) == Some(csr)
            && u.Get(internal, KeyKind) == asked.Get(internal, KeyKind) && !u.Waiting(internal)
            && (forall j, k :: j != internal ==> u.Get(j, k) == asked.Get(j, k))
            && (forall j :: j != internal ==> u.Waiting(j) == asked.Waiting(j))
  {
    CertificateTakenExactlyIfCurrent(asked, csr, chain, Some(cert), ca, internal);
    InstalledReads(asked, internal, chain, Some(cert), ca);
  }

  /** The first two steps of a renewal: the unit asks, the provider signs. */
  lemma RenewalAsks(w: World, internal: bool, csr: string, ips: set<string>, cert: string) returns (asked: World)
    requires Inv(w) && w.Get(internal, CertKind).Some? && Text.RStrip(CertOrEmpty(w, internal)) != "" && NewCsr(w, csr)
    requires Secrets.Storable(cert) && Text.RStrip(cert) != "" && Text.RStrip(cert) !in w.signed
    ensures Possible(w, ExpiringStep(CertOrEmpty(w, internal), csr, ips))
    ensures Possible(Apply(w, ExpiringStep(CertOrEmpty(w, internal), csr, ips)), SignStep(csr, cert))
    ensures asked == Apply(Apply(w, ExpiringStep(CertOrEmpty(w, internal), csr, ips)), SignStep(csr, cert))
    ensures Inv(asked) && asked.related == w.related
    ensures forall j, k :: asked.Get(j, k) == if j == internal && k == CsrKind then Some(csr) else w.Get(j, k)
    ensures forall j :: j != internal ==> asked.Waiting(j) == w.Waiting(j)
    ensures Text.RStrip(csr) in asked.made && asked.made[Text.RStrip(csr)].internal == internal
    ensures asked.made[Text.RStrip(csr)].ips == ips
    ensures Text.RStrip(cert) in asked.signed && asked.signed[Text.RStrip(cert)] == Text.RStrip(csr)
  {
    ExpiringIsForItsSide(w, internal, csr, ips);
    RenewedReads(w, internal, csr, ips);
    RenewedKeeps(w, internal, csr, ips);
    var renewed := Renewed(w, internal, csr, ips).value;
    SignedKeeps(renewed, csr, cert);
    asked := renewed.(signed := renewed.signed[Text.RStrip(cert) := Text.RStrip(csr)]);
  }

  lemma ThreeSteps(w: World, steps: seq<Step>)
    requires |steps| == 3
    ensures IsRun(w, steps) <==>
            && Possible(w, steps[0]) && Possible(Apply(w, steps[0]), steps[1])
            && Possible(Apply(Apply(w, steps[0]), steps[1]), steps[2])
    ensures After(w, steps) == Apply(Apply(Apply(w, steps[0]), steps[1]), steps[2])
  {
    var w1 := Apply(w, steps[0]);
    var w2 := Apply(w1, steps[1]);
    assert steps[1..][0] == steps[1] && steps[1..][1..][0] == steps[2] && steps[1..][1..][1..] == [];
    assert IsRun(w2, steps[1..][1..]) <==> Possible(w2, steps[2]);
    assert After(w2, steps[1..][1..]) == Apply(w2, steps[2]);
  }

  /** After a look at the addresses a side is certified for the current ones, awaits a certificate, or has none. */
  lemma AddressesSettle(w: World, internal: bool, csr: string, ips: set<string>)
    requires Inv(w) && NewCsr(w, csr)
    ensures var u := Apply(w, SansStep(internal, csr, ips));
            u.Waiting(internal) || !u.Enabled(internal) || CertifiedIps(u, internal) == ips
  {
    assert SideInv(w, internal);
    ReadsAreStorable(w, internal, KeyKind);
    ReadsAreStorable(w, internal, CsrKind);
  }

  /** A certificate is asked for exactly if none is awaited, the side is enabled, and the addresses have moved. */
  lemma AsksExactlyWhenAddressesMoved(w: World, internal: bool, csr: string, ips: set<string>)
    requires Inv(w) && NewCsr(w, csr)
    ensures Apply(w, SansStep(internal, csr, ips)) != w <==>
            !w.Waiting(internal) && w.related && w.Get(internal, CertKind).Some?
            && CertifiedIps(w, internal) != ips
    ensures Apply(w, SansStep(internal, csr, ips)) != w ==>
              var u := Apply(w, SansStep(internal, csr, ips));
              u.Waiting(internal) && u.Get(internal, CsrKind) == Some(csr)
              && u.Get(internal, KeyKind) == w.Get(internal, KeyKind)
  {
    assert SideInv(w, internal);
    ReadsAreStorable(w, internal, KeyKind);
    ReadsAreStorable(w, internal, CsrKind);
    RenewedReads(w, internal, csr, ips);
  }

  /** And looking again, however the addresses moved on while a certificate is awaited, asks for nothing more. */
  lemma NoChainOfRenewals(w: World, internal: bool, csr: string, ips: set<string>, again: string, later: set<string>)
    requires Inv(w) && NewCsr(w, csr)
    ensures var u := Apply(w, SansStep(internal, csr, ips));
            u.Waiting(internal) || ips == later ==> Apply(u, SansStep(internal, again, later)) == u
  {
    assert SideInv(w, internal);
    ReadsAreStorable(w, internal, KeyKind);
    ReadsAreStorable(w, internal, CsrKind);
  }

  // ---- The manager as the charm runs it -----------------------------------------------------------------

  class TlsManager {
    const cache: Secrets.SecretCache
    var waiting: map<bool, bool>
    var related: bool
    ghost var made: map<string, Request>
    ghost var signed: map<string, string>

    ghost predicate Valid()
      reads this, cache, cache.Repr
    {
      cache.Valid() && this !in cache.Repr && Secrets.StorableStore(cache.juju.secrets)
    }

    ghost function State(): World
      reads this, cache, cache.juju
    {
      World(cache.juju.secrets, waiting, related, made, signed)
    }

    constructor (cache: Secrets.SecretCache)
      requires cache.Valid() && Secrets.StorableStore(cache.juju.secrets)
      ensures Valid() && this.cache == cache && waiting == map[] && made == map[] && signed == map[]
    {
      this.cache := cache;
      this.waiting := map[];
      this.related := false;
      this.made := map[];
      this.signed := map[];
    }

    method Write(internal: bool, kind: Kind, contents: Option<string>)
      requires Valid()
      modifies cache.Repr
      ensures Valid() && fresh(cache.Repr - old(cache.Repr))
      ensures cache.juju.secrets == SetSecret(old(cache.juju.secrets), internal, kind, contents)
    {
      SetThenGet(cache.juju.secrets, internal, kind, contents);
      if contents == None || contents.value == "" {
        cache.Remove(Secrets.UnitScope, Label(internal, kind));
        return;
      }
      cache.Set(Label(internal, kind), contents.value, Secrets.UnitScope);
    }

    method Read(internal: bool, kind: Kind) returns (value: Option<string>)
      requires Valid()
      modifies cache.Repr
      ensures Valid() && fresh(cache.Repr - old(cache.Repr)) && cache.juju.secrets == old(cache.juju.secrets)
      ensures value == State().Get(internal, kind)
    {
      value := cache.GetForKey(Secrets.UnitScope, Label(internal, kind));
    }

    /** A key and its request replace those of a side, and the side waits for the certificate. */
    method GenerateCertificateRequest(internal: bool, key: string, csr: string, ips: set<string>)
      requires Valid()
      modifies this, cache.Repr
      ensures Valid() && fresh(cache.Repr - old(cache.Repr))
      ensures State() == Requested(old(State()), internal, key, csr, ips)
    {
      Write(internal, KeyKind, Some(key));
      Write(internal, CsrKind, Some(csr));
      Write(internal, CertKind, None);
      waiting := waiting[internal := true];
      made := made[Text.RStrip(csr) := Request(internal, key, ips)];
    }

    /** Both sides in turn: when the relation with the provider appears, and when the operator sets keys. */
    method RequestBoth(keys: map<bool, string>, csrs: map<bool, string>, ips: set<string>)
      requires Valid() && keys.Keys == csrs.Keys == {true, false}
      modifies this, cache.Repr
      ensures Valid() && fresh(cache.Repr - old(cache.Repr))
      ensures State() == Requested(Requested(old(State()), true, keys[true], csrs[true], ips),
                                   false, keys[false], csrs[false], ips)
    {
      GenerateCertificateRequest(true, keys[true], csrs[true], ips);
      GenerateCertificateRequest(false, keys[false], csrs[false], ips);
    }

    method GenerateNewCsr(internal: bool, csr: string, ips: set<string>) returns (r: Result<string, Error>)
      requires Valid()
      modifies this, cache.Repr
      ensures Valid() && fresh(cache.Repr - old(cache.Repr))
      ensures State() == OrUnchanged(old(State()), Renewed(old(State()), internal, csr, ips))
      ensures r.Ok? <==> Renewed(old(State()), internal, csr, ips).Ok?
      ensures r.Ok? ==> Some(r.value) == old(State()).Get(internal, CsrKind)
      ensures r.Err? ==> r.error == NonExistentCertificate
    {
      var key := Read(internal, KeyKind);
      var previous := Read(internal, CsrKind);
      if key == None || key.value == "" || previous == None || previous.value == "" {
        return Err(NonExistentCertificate);
      }
      Write(internal, CsrKind, Some(csr));
      waiting := waiting[internal := true];
      made := made[Text.RStrip(csr) := Request(internal, key.value, ips)];
      return Ok(previous.value);
    }

    method Install(internal: bool, chain: Option<seq<string>>, cert: Option<string>, ca: Option<string>)
      requires Valid()
      modifies this, cache.Repr
      ensures Valid() && fresh(cache.Repr - old(cache.Repr))
      ensures State() == Installed(old(State()), internal, chain, cert, ca)
    {
      Write(internal, ChainKind, if chain.Some? then Some(Text.Join(chain.value, '\n')) else None);
      Write(internal, CertKind, cert);
      Write(internal, CaKind, ca);
      waiting := waiting[internal := false];
    }

    method SetCertificates(csr: string, chain: Option<seq<string>>, cert: Option<string>, ca: Option<string>)
      returns (r: Result<bool, Error>)
      requires Valid()
      modifies this, cache.Repr
      ensures Valid() && fresh(cache.Repr - old(cache.Repr))
      ensures State() == OrUnchanged(old(State()), Available(old(State()), csr, chain, cert, ca))
      ensures r == if IsFor(old(State()), csr, false) then Ok(false)
                   else if IsFor(old(State()), csr, true) then Ok(true) else Err(UnknownCertificateAvailable)
    {
      var internalCsr := Read(true, CsrKind);
      var externalCsr := Read(false, CsrKind);
      var internal: bool;
      if externalCsr.Some? && externalCsr.value != "" && Text.RStrip(csr) == Text.RStrip(externalCsr.value) {
        internal := false;
      } else if internalCsr.Some? && internalCsr.value != "" && Text.RStrip(csr) == Text.RStrip(internalCsr.value) {
        internal := true;
      } else {
        return Err(UnknownCertificateAvailable);
      }
      Install(internal, chain, cert, ca);
      return Ok(internal);
    }

    method RenewExpiringCertificate(cert: string, csr: string, ips: set<string>) returns (r: Result<string, Error>)
      requires Valid()
      modifies this, cache.Repr
      ensures Valid() && fresh(cache.Repr - old(cache.Repr))
      ensures State() == OrUnchanged(old(State()), Expiring(old(State()), cert, csr, ips))
      ensures r.Ok? <==> Expiring(old(State()), cert, csr, ips).Ok?
      ensures r.Err? ==> Expiring(old(State()), cert, csr, ips) == Err(r.error)
    {
      var external := Read(false, CertKind);
      if Text.RStrip(cert) == Text.RStrip(if external.Some? then external.value else "") {
        r := GenerateNewCsr(false, csr, ips);
        return;
      }
      var internal := Read(true, CertKind);
      if Text.RStrip(cert) == Text.RStrip(if internal.Some? then internal.value else "") {
        r := GenerateNewCsr(true, csr, ips);
        return;
      }
      return Err(UnknownCertificateExpiring);
    }

    /**
     One side of the periodic look at the unit's addresses, given those in its certificate: the old request if
     it asks.
     */
    method UpdateTlsSans(internal: bool, certified: set<string>, csr: string, ips: set<string>)
      returns (r: Result<Option<string>, Error>)
      requires Valid() && certified == CertifiedIps(State(), internal)
      modifies this, cache.Repr
      ensures Valid() && fresh(cache.Repr - old(cache.Repr))
      ensures State() == OrUnchanged(old(State()), SansRefreshed(old(State()), internal, csr, ips))
      ensures r.Err? <==> SansRefreshed(old(State()), internal, csr, ips).Err?
      ensures r.Err? ==> r.error == NonExistentCertificate
      ensures r.Ok? ==> (r.value == None <==> State() == old(State()))
      ensures r.Ok? && r.value.Some? ==> r.value == old(State()).Get(internal, CsrKind)
    {
      r := Ok(None);
      if internal in waiting && waiting[internal] {
        return;
      }
      var cert := Read(internal, CertKind);
      var expected := if related && cert.Some? then ips else {};
      if certified == expected {
        return;
      }
      var renewed := GenerateNewCsr(internal, csr, ips);
      r := if renewed.Ok? then Ok(Some(renewed.value)) else Err(renewed.error);
    }

    method Clear(internal: bool)
      requires Valid()
      modifies cache.Repr
      ensures Valid() && fresh(cache.Repr - old(cache.Repr))
      ensures cache.juju.secrets == ClearedSide(old(cache.juju.secrets), internal)
    {
      Write(internal, CaKind, None);
      Write(internal, CertKind, None);
      Write(internal, ChainKind, None);
    }

    method DisableCertificatesForUnit()
      requires Valid()
      modifies this, cache.Repr
      ensures Valid() && fresh(cache.Repr - old(cache.Repr))
      ensures State() == Disabled(old(State()))
    {
      Clear(true);
      Clear(false);
    }

    method GetTlsFiles(internal: bool) returns (caFile: Option<string>, pemFile: Option<string>)
      requires Valid()
      modifies cache.Repr
      ensures Valid() && fresh(cache.Repr - old(cache.Repr)) && State() == old(State())
      ensures (caFile, pemFile) == TlsFiles(State(), internal)
    {
      var cert := Read(internal, CertKind);
      if !related || cert == None {
        return None, None;
      }
      var ca := Read(internal, CaKind);
      var chain := Read(internal, ChainKind);
      caFile := if chain.Some? && chain.value != "" then chain else ca;
      var key := Read(internal, KeyKind);
      pemFile := key;
      if cert.value != "" {
        pemFile := Some(if key.Some? && key.value != "" then key.value + "\n" + cert.value else cert.value);
      }
    }
  }
}
