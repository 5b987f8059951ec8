/** The names the policy generator derives from a network: one prefix per role in each section, and why
    names of different networks do not collide. */
module PolicyNames {
  import opened Prelude

  /** A caller that submits transactions under its own permissions block. */
  datatype Role = Claim | UptimeSubmit | RewardSubmit | FastUpdate1 | FastUpdate2 | FastUpdate3 | PriceSubmit |
    SignatureSubmit
                | RelaySubmit | PolicySubmit | VoterSubmit | ConfirmSubmit | ConfirmSignatureSubmit | ConfirmSigning

  /** A caller that signs FSP messages under its own fsp_permissions block. */
  datatype SignRole = UptimeSign | RewardSign | PolicySign | VoterSign | ProtocolSign | FastUpdateSign

  datatype WalletRole = Claimer | Signing | Sender | Seat1 | Seat2 | Seat3 | PriceWallet | SignatureWallet

  datatype CallerRole = Submits(role: Role) | Signs(sign: SignRole)

  const SHARED_SENDER := "fsp-sender"
  const SHARED_SENDER_CONSTRAINT := "wc/fsp-sender"

  function PermPrefix(r: Role): string {
    match r
    case Claim => "perm/claim-"
    case UptimeSubmit => "perm/uptime-submit-"
    case RewardSubmit => "perm/reward-submit-"
    case FastUpdate1 => "perm/fastupdate-submit-1-"
    case FastUpdate2 => "perm/fastupdate-submit-2-"
    case FastUpdate3 => "perm/fastupdate-submit-3-"
    case PriceSubmit => "perm/ftso-price-submit-"
    case SignatureSubmit => "perm/ftso-signature-submit-"
    case RelaySubmit => "perm/relay-submit-"
    case PolicySubmit => "perm/signing-policy-submit-"
    case VoterSubmit => "perm/voter-registration-submit-"
    case ConfirmSubmit => "perm/entity-confirm-submit-"
    case ConfirmSignatureSubmit => "perm/entity-confirm-sig-submit-"
    case ConfirmSigning => "perm/entity-confirm-signing-"
  }

  function FspPrefix(m: SignRole): string {
    match m
    case UptimeSign => "fsp/uptime-"
    case RewardSign => "fsp/reward-"
    case PolicySign => "fsp/signing-policy-"
    case VoterSign => "fsp/voter-registration-"
    case ProtocolSign => "fsp/protocol-message-"
    case FastUpdateSign => "fsp/fastupdate-sign-"
  }

  function CallerPrefix(c: CallerRole): string {
    match c
    case Submits(r) =>
      (match r
       case Claim => "claim-"
       case UptimeSubmit => "uptime-vote-submit-"
       case RewardSubmit => "reward-distribution-submit-"
       case FastUpdate1 => "fastupdate-submit-1-"
       case FastUpdate2 => "fastupdate-submit-2-"
       case FastUpdate3 => "fastupdate-submit-3-"
       case PriceSubmit => "ftso-price-submit-"
       case SignatureSubmit => "ftso-signature-submit-"
       case RelaySubmit => "relay-submit-"
       case PolicySubmit => "signing-policy-submit-"
       case VoterSubmit => "voter-registration-submit-"
       case ConfirmSubmit => "entity-confirm-submit-"
       case ConfirmSignatureSubmit => "entity-confirm-sig-submit-"
       case ConfirmSigning => "entity-confirm-signing-")
    case Signs(m) =>
      (match m
       case UptimeSign => "uptime-vote-sign-"
       case RewardSign => "reward-distribution-sign-"
       case PolicySign => "signing-policy-sign-"
       case VoterSign => "voter-registration-sign-"
       case ProtocolSign => "protocol-message-sign-"
       case FastUpdateSign => "fastupdate-sign-")
  }

  function WalletPrefix(w: WalletRole): string {
    match w
    case Claimer => "claimer-"
    case Signing => "fsp-signing-"
    case Sender => "fsp-sender-"
    case Seat1 => "fastupdate-1-"
    case Seat2 => "fastupdate-2-"
    case Seat3 => "fastupdate-3-"
    case PriceWallet => "fsp-submit-"
    case SignatureWallet => "fsp-sig-submit-"
  }

  function ConstraintPrefix(w: WalletRole): string {
    match w
    case Claimer => "wc/claimer-"
    case Signing => "wc/fsp-"
    case Sender => "wc/fsp-sender-"
    case Seat1 => "wc/fastupdate-1-"
    case Seat2 => "wc/fastupdate-2-"
    case Seat3 => "wc/fastupdate-3-"
    case PriceWallet => "wc/fsp-submit-"
    case SignatureWallet => "wc/fsp-sig-submit-"
  }

  function PermPath(r: Role, net: string): string { PermPrefix(r) + net }
  function FspPath(m: SignRole, net: string): string { FspPrefix(m) + net }
  function CallerName(c: CallerRole, net: string): string { CallerPrefix(c) + net }
  function WalletName(w: WalletRole, net: string): string { WalletPrefix(w) + net }
  function ConstraintPath(w: WalletRole, net: string): string { ConstraintPrefix(w) + net }

  // ---------- Reading the role back from a name ----------

  function At(s: string, i: nat): char {
    if i < |s| then s[i] else ' '
  }

  function PermRoleOf(path: string): Role {
    match At(path, 5)
    case 'c' => Claim
    case 'u' => UptimeSubmit
    case 'r' => if At(path, 7) == 'w' then RewardSubmit else RelaySubmit
    case 'f' =>
      if At(path, 6) == 't' then (if At(path, 10) == 'p' then PriceSubmit else SignatureSubmit)
      else if At(path, 23) == '1' then FastUpdate1 else if At(path, 23) == '2' then FastUpdate2 else FastUpdate3
    case 's' => PolicySubmit
    case 'v' => VoterSubmit
    case _ =>
      if At(path, 21) == 'u' then ConfirmSubmit else if At(path, 23) == '-' then ConfirmSignatureSubmit
        else ConfirmSigning
  }

  function FspRoleOf(path: string): SignRole {
    match At(path, 4)
    case 'u' => UptimeSign
    case 'r' => RewardSign
    case 's' => PolicySign
    case 'v' => VoterSign
    case 'p' => ProtocolSign
    case _ => FastUpdateSign
  }

  function CallerRoleOf(name: string): CallerRole {
    match At(name, 0)
    case 'c' => Submits(Claim)
    case 'u' => if At(name, 13) == 'u' then Submits(UptimeSubmit) else Signs(UptimeSign)
    case 'r' =>
      if At(name, 2) == 'l' then Submits(RelaySubmit)
      else if At(name, 21) == 'u' then Submits(RewardSubmit) else Signs(RewardSign)
    case 'f' =>
      if At(name, 1) == 't' then (if At(name, 5) == 'p' then Submits(PriceSubmit) else Submits(SignatureSubmit))
      else if At(name, 12) == 'i' then Signs(FastUpdateSign)
      else if At(name, 18) == '1' then Submits(FastUpdate1)
      else if At(name, 18) == '2' then Submits(FastUpdate2) else Submits(FastUpdate3)
    case 's' => if At(name, 16) == 'u' then Submits(PolicySubmit) else Signs(PolicySign)
    case 'v' => if At(name, 20) == 'u' then Submits(VoterSubmit) else Signs(VoterSign)
    case 'p' => Signs(ProtocolSign)
    case _ =>
      if At(name, 16) == 'u' then Submits(ConfirmSubmit)
      else if At(name, 18) == '-' then Submits(ConfirmSignatureSubmit) else Submits(ConfirmSigning)
  }

  function WalletRoleOf(name: string): WalletRole {
    if At(name, 0) == 'c' then Claimer
    else if At(name, 1) == 'a' then (if At(name, 11) == '1' then Seat1 else if At(name, 11) == '2' then Seat2
      else Seat3)
    else if At(name, 5) == 'u' then PriceWallet
    else if At(name, 5) == 'e' then Sender
    else if At(name, 7) == 'n' then Signing else SignatureWallet
  }

  lemma SuffixesAgree(prefix: string, a: string, b: string)
    requires prefix + a == prefix + b
    ensures a == b
  {
    assert a == (prefix + a)[|prefix|..] && b == (prefix + b)[|prefix|..];
  }

  /** Every permissions path names one role and one network. */
  lemma PermPathInjective(r: Role, net: string, r': Role, net': string)
    requires PermPath(r, net) == PermPath(r', net')
    ensures r == r' && net == net'
  {
    PermRoleRead(r, net);
    PermRoleRead(r', net');
    SuffixesAgree(PermPrefix(r), net, net');
  }

  lemma AtPrefix(prefix: string, net: string)
    ensures forall i :: 0 <= i < |prefix| ==> At(prefix + net, i) == prefix[i]
  {
  }

  lemma PermRoleRead(r: Role, net: string)
    ensures PermRoleOf(PermPath(r, net)) == r
  {
    AtPrefix(PermPrefix(r), net);
    var path := PermPath(r, net);
    hide At;
    match r {
      case FastUpdate1 => assert At(path, 5) == 'f' && At(path, 6) == 'a' && At(path, 23) == '1';
      case FastUpdate2 => assert At(path, 5) == 'f' && At(path, 6) == 'a' && At(path, 23) == '2';
      case FastUpdate3 => assert At(path, 5) == 'f' && At(path, 6) == 'a' && At(path, 23) == '3';
      case ConfirmSignatureSubmit => assert At(path, 5) == 'e' && At(path, 21) == 'i' && At(path, 23) == '-';
      case ConfirmSigning => assert At(path, 5) == 'e' && At(path, 21) == 'i' && At(path, 23) == 'n';
      case _ =>
    }
  }

  lemma FspPathInjective(m: SignRole, net: string, m': SignRole, net': string)
    requires FspPath(m, net) == FspPath(m', net')
    ensures m == m' && net == net'
  {
    assert FspRoleOf(FspPath(m, net)) == m && FspRoleOf(FspPath(m', net')) == m';
    SuffixesAgree(FspPrefix(m), net, net');
  }

  lemma SignerRead(m: SignRole, net: string)
    ensures CallerRoleOf(CallerName(Signs(m), net)) == Signs(m)
  {
    AtPrefix(CallerPrefix(Signs(m)), net);
    hide At;
  }

  lemma SubmitterRead(r: Role, net: string)
    ensures CallerRoleOf(CallerName(Submits(r), net)) == Submits(r)
  {
    AtPrefix(CallerPrefix(Submits(r)), net);
    var name := CallerName(Submits(r), net);
    hide At;
    match r {
      case FastUpdate1 => assert At(name, 0) == 'f' && At(name, 1) == 'a' && At(name, 12) == 'u' && At(name, 18) == '1';
      case FastUpdate2 => assert At(name, 0) == 'f' && At(name, 1) == 'a' && At(name, 12) == 'u' && At(name, 18) == '2';
      case FastUpdate3 => assert At(name, 0) == 'f' && At(name, 1) == 'a' && At(name, 12) == 'u' && At(name, 18) == '3';
      case ConfirmSignatureSubmit => assert At(name, 0) == 'e' && At(name, 16) == 'i' && At(name, 18) == '-';
      case ConfirmSigning => assert At(name, 0) == 'e' && At(name, 16) == 'i' && At(name, 18) == 'n';
      case _ =>
    }
  }

  lemma CallerRoleRead(c: CallerRole, net: string)
    ensures CallerRoleOf(CallerName(c, net)) == c
  {
    hide *;
    match c {
      case Submits(r) => SubmitterRead(r, net);
      case Signs(m) => SignerRead(m, net);
    }
  }

  lemma CallerNameInjective(c: CallerRole, net: string, c': CallerRole, net': string)
    requires CallerName(c, net) == CallerName(c', net')
    ensures c == c' && net == net'
  {
    CallerRoleRead(c, net);
    CallerRoleRead(c', net');
    SuffixesAgree(CallerPrefix(c), net, net');
  }

  lemma WalletNameInjective(w: WalletRole, net: string, w': WalletRole, net': string)
    requires WalletName(w, net) == WalletName(w', net')
    ensures w == w' && net == net'
  {
    assert WalletRoleOf(WalletName(w, net)) == w && WalletRoleOf(WalletName(w', net')) == w';
    SuffixesAgree(WalletPrefix(w), net, net');
  }

  /** The shared sender is nobody's network wallet. */
  lemma SharedSenderDistinct(w: WalletRole, net: string)
    ensures WalletName(w, net) != SHARED_SENDER
  {
    assert w == Sender ==> |WalletName(w, net)| > |SHARED_SENDER|;
    assert w != Sender ==> WalletRoleOf(WalletName(w, net)) != WalletRoleOf(SHARED_SENDER);
  }

  // ---------- The one section where networks can collide ----------

  /** What the constraint prefix of a dedicated FSP wallet has beyond that of the signing wallet. */
  function Tail(w: WalletRole): Option<string> {
    match w
    case Sender => Some("sender-")
    case PriceWallet => Some("submit-")
    case SignatureWallet => Some("sig-submit-")
    case _ => None
  }

  /** The signing wallet of `net` has the constraint path of wallet `w` of `other`. */
  predicate Shadows(net: string, w: WalletRole, other: string) {
    Tail(w).Some? && net == Tail(w).value + other
  }

  /** A network name that begins like no dedicated FSP wallet. */
  predicate Plain(net: string) {
    net != "sender" && !("sender-" <= net) && !("submit-" <= net) && !("sig-submit-" <= net)
  }

  function ConstraintRoleOf(path: string): WalletRole {
    if At(path, 3) == 'c' then Claimer
    else if At(path, 4) == 's' then Signing
    else if At(path, 14) == '1' then Seat1 else if At(path, 14) == '2' then Seat2 else Seat3
  }

  lemma TailExtends(w: WalletRole, net: string)
    requires Tail(w).Some?
    ensures ConstraintPath(w, net) == ConstraintPath(Signing, Tail(w).value + net)
  {
    match w {
      case Sender => assert "wc/fsp-sender-" == "wc/fsp-" + "sender-";
      case PriceWallet => assert "wc/fsp-submit-" == "wc/fsp-" + "submit-";
      case SignatureWallet => assert "wc/fsp-sig-submit-" == "wc/fsp-" + "sig-submit-";
      case _ =>
    }
    assert ConstraintPrefix(w) == ConstraintPrefix(Signing) + Tail(w).value;
    hide ConstraintPrefix, Tail;
  }

  lemma TailsDiffer(w: WalletRole, net: string, w': WalletRole, net': string)
    requires Tail(w).Some? && Tail(w').Some? && Tail(w).value + net == Tail(w').value + net'
    ensures w == w' && net == net'
  {
    assert (Tail(w).value + net)[1] == Tail(w).value[1] && (Tail(w').value + net')[1] == Tail(w').value[1];
    SuffixesAgree(Tail(w).value, net, net');
  }

  /** Two constraint paths coincide exactly when they are the same wallet's, or one network is named like a
      dedicated wallet of the other. */
  lemma ConstraintPathClash(w: WalletRole, net: string, w': WalletRole, net': string)
    ensures ConstraintPath(w, net) == ConstraintPath(w', net') <==>
              || (w == w' && net == net')
              || (w == Signing && Shadows(net, w', net'))
              || (w' == Signing && Shadows(net', w, net))
  {
    if Tail(w).Some? { TailExtends(w, net); }
    if Tail(w').Some? { TailExtends(w', net'); }
    if ConstraintPath(w, net) == ConstraintPath(w', net') {
      SameConstraintKind(w, net, w', net');
      if (w == Signing || Tail(w).Some?) && (w' == Signing || Tail(w').Some?) {
        var x := if w == Signing then net else Tail(w).value + net;
        var y := if w' == Signing then net' else Tail(w').value + net';
        SuffixesAgree(ConstraintPrefix(Signing), x, y);
        if Tail(w).Some? && Tail(w').Some? {
          TailsDiffer(w, net, w', net');
        }
      } else {
        SuffixesAgree(ConstraintPrefix(w), net, net');
      }
    }
  }

  lemma SameConstraintKind(w: WalletRole, net: string, w': WalletRole, net': string)
    requires ConstraintPath(w, net) == ConstraintPath(w', net')
    ensures w == w' || ((w == Signing || Tail(w).Some?) && (w' == Signing || Tail(w').Some?))
  {
    ConstraintRoleRead(w, net);
    ConstraintRoleRead(w', net');
  }

  lemma ConstraintRoleRead(w: WalletRole, net: string)
    ensures ConstraintRoleOf(ConstraintPath(w, net)) == if Tail(w).Some? then Signing else w
  {
  }
}
