/** Sensitive copies on the system clipboard: the timer that takes them back, other applications taking
    the clipboard over, and clearing on lock. Time is in milliseconds. */
module SensitiveClipboards {
  import opened Wrappers

  const SNAPSHOT_WINDOW: int := 150

  const U64: nat := 0x1_0000_0000_0000_0000
  const U32_MAX: nat := 0xFFFF_FFFF

  datatype SensitiveKind = Password | Login | RecoveryPhrase

  datatype ActiveCopy = ActiveCopy(kind: SensitiveKind, copiedAt: int, expiresAt: int)

  datatype Exposure = Idle | Decrypting | InClipboard(kind: SensitiveKind, copiedAt: int, expiresAt: int)

  predicate ServesSecret(sinceCopy: int, expired: bool) {
    !expired && sinceCopy >= SNAPSHOT_WINDOW
  }

  function ExposureOf(active: Option<ActiveCopy>, decrypting: nat): Exposure {
    match active
    case Some(copy) => InClipboard(copy.kind, copy.copiedAt, copy.expiresAt)
    case None => if decrypting > 0 then Decrypting else Idle
  }

  // ---- the history that the state stands for -----------------------------------------------------------------

  /** What happened, in order; `display` says whether the system clipboard could be reached. */
  datatype Event =
    | Copied
    | Expired(display: bool)
    | Cleared(display: bool)
    | TakenOver
    | Elsewhere

  /** The latest copy was neither expired nor cleared nor taken over since. */
  predicate Standing(history: seq<Event>) {
    history != []
    && match history[|history| - 1]
       case Copied => true
       case Elsewhere => Standing(history[..|history| - 1])
       case _ => false
  }

  /** The clipboard may still have to be emptied: an end that could not reach the display settles nothing,
      and a take-over settles only a standing copy. */
  predicate Owing(history: seq<Event>) {
    history != []
    && var before := history[..|history| - 1];
       match history[|history| - 1]
       case Copied => true
       case Expired(display) => !display && Owing(before)
       case Cleared(display) => !display && Owing(before)
       case TakenOver => !Standing(before) && Owing(before)
       case Elsewhere => Owing(before)
  }

  lemma {:induction false} StandingIsOwing(history: seq<Event>)
    ensures Standing(history) ==> Owing(history)
  {
    if history != [] {
      StandingIsOwing(history[..|history| - 1]);
    }
  }

  /** As long as the display is there, the two are the same. */
  lemma {:induction false} OwingIsStanding(history: seq<Event>)
    requires forall e :: e in history ==> e != Expired(false) && e != Cleared(false)
    ensures Owing(history) <==> Standing(history)
  {
    if history != [] {
      var n := |history| - 1;
      assert history[n] in history;
      forall e | e in history[..n] ensures e != Expired(false) && e != Cleared(false) {
        assert e in history;
      }
      OwingIsStanding(history[..n]);
    }
  }

  lemma HistoryStep(history: seq<Event>, e: Event)
    ensures Standing(history + [e]) <==> e == Copied || (e == Elsewhere && Standing(history))
    ensures Owing(history + [e]) <==>
      || e == Copied
      || (Owing(history) && (e == Elsewhere || e == Expired(false) || e == Cleared(false) || (e == TakenOver && !Standing(history))))
  {
    assert (history + [e])[..|history|] == history;
  }

  // ---- the clipboard and its content ---------------------------------------------------------------------------

  /** What a paste gets from one copy: nothing before it is ready, nothing once it was dropped. */
  class SecretContent {
    var secret: Option<string>
    const copiedAt: int

    constructor (text: string, now: int)
      ensures secret == Some(text) && copiedAt == now
    {
      secret, copiedAt := Some(text), now;
    }

    function CurrentText(now: int): (text: string)
      reads this
      ensures text != "" ==> secret == Some(text) && now - copiedAt >= SNAPSHOT_WINDOW
      ensures secret.Some? && now - copiedAt >= SNAPSHOT_WINDOW ==> text == secret.value
    {
      if secret.Some? && ServesSecret(now - copiedAt, false) then secret.value else ""
    }

    method Expire()
      modifies this`secret
      ensures secret == None
    {
      secret := None;
    }
  }

  /** Who holds the system clipboard. */
  datatype Holder = OtherApplication | Provider(content: SecretContent) | OwnText(text: string)

  class Ledger {
    var generation: nat
    var pending: bool

    constructor ()
      ensures generation == 0 && !pending
    {
      generation, pending := 0, false;
    }

    method RecordCopy() returns (g: nat)
      modifies this
      ensures generation == (old(generation) + 1) % U64 && g == generation && pending
    {
      generation := (generation + 1) % U64;
      pending := true;
      g := generation;
    }

    method Expire(g: nat, clipboardIsOurs: bool) returns (wipe: bool)
      modifies this`pending
      ensures wipe <==> old(pending) && g == generation && clipboardIsOurs
      ensures pending <==> old(pending) && g != generation
    {
      if !pending || g != generation {
        return false;
      }
      pending := false;
      wipe := clipboardIsOurs;
    }

    method TakePending(clipboardIsOurs: bool) returns (wipe: bool)
      modifies this`pending
      ensures wipe <==> old(pending) && clipboardIsOurs
      ensures !pending
    {
      var wasPending := pending;
      pending := false;
      wipe := wasPending && clipboardIsOurs;
    }
  }

  class SensitiveClipboard {
    const ledger: Ledger
    var holder: Holder
    /** The armed timer, by the generation it was armed for. */
    var timer: Option<nat>
    var content: SecretContent?
    var active: Option<ActiveCopy>
    var decrypting: nat
    ghost var providers: set<SecretContent>
    ghost var history: seq<Event>

    /** Content, timer and active copy come and go together, with the standing copy; the timer is the
        latest copy's; only its content holds a secret. */
    ghost predicate Valid()
      reads this, ledger, providers
    {
      && (timer.Some? <==> Standing(history))
      && (content != null <==> Standing(history))
      && (active.Some? <==> Standing(history))
      && (ledger.pending <==> Owing(history))
      && (timer.Some? ==> timer.value == ledger.generation)
      && (content != null ==> content in providers && content.secret.Some?)
      && (forall p :: p in providers && p.secret.Some? ==> p == content)
      && (holder.Provider? ==> holder.content in providers)
      && decrypting <= U32_MAX
    }

    constructor ()
      ensures Valid() && history == [] && providers == {} && holder == OtherApplication && fresh(ledger)
    {
      ledger := new Ledger();
      holder, timer, content, active, decrypting := OtherApplication, None, null, None, 0;
      providers, history := {}, [];
    }

    predicate IsLocal()
      reads this
    {
      !holder.OtherApplication?
    }

    function CurrentExposure(): (e: Exposure)
      requires Valid()
      reads this, ledger, providers
      ensures e.InClipboard? <==> Standing(history)
      ensures active.Some? ==>
        && e.InClipboard? && e.kind == active.value.kind
        && e.copiedAt == active.value.copiedAt && e.expiresAt == active.value.expiresAt
      ensures e.Decrypting? <==> !Standing(history) && decrypting > 0
    {
      ExposureOf(active, decrypting)
    }

    /** What a paste receives, when the clipboard is ours. */
    function Paste(now: int): (text: string)
      requires Valid() && IsLocal()
      reads this, ledger, providers
      ensures holder.OwnText? ==> text == holder.text
      ensures holder.Provider? && holder.content == content ==>
        Standing(history) && Some(text) == if now - content.copiedAt >= 150 then content.secret else Some("")
      ensures holder.Provider? && holder.content != content ==> text == ""
    {
      match holder
      case Provider(p) => p.CurrentText(now)
      case OwnText(text) => text
    }

    method ExpireContent()
      modifies this`content, providers`secret
      requires content != null ==> content in providers
      ensures content == null
      ensures forall p :: p in providers ==> p.secret == if p == old(content) then None else old(p.secret)
    {
      if content != null {
        content.Expire();
        content := null;
      }
    }

    /** `wipe_owned_clipboard`: the compositor lets only a focused window change the clipboard. */
    method WipeOwnedClipboard(focused: bool)
      modifies this`holder
      ensures holder == if focused then OwnText("") else old(holder)
    {
      if focused {
        holder := OwnText("");
      }
    }

    /** A copy replaces the one before it, whose secret is dropped and whose timer is removed. It can be
        pasted from 150 milliseconds on. A copy that fails changes nothing that can be pasted. */
    method CopySensitive(text: string, kind: SensitiveKind, clearAfter: int, madeAt: int, copiedAt: int,
                         display: bool, accepted: bool) returns (copied: bool)
      requires Valid()
      modifies this, ledger, providers`secret
      ensures Valid()
      ensures copied <==> display && accepted
      ensures history == if copied then old(history) + [Copied] else old(history)
      ensures !copied ==> holder == old(holder) && active == old(active)
      ensures !copied && IsLocal() ==> forall now :: Paste(now) == old(Paste(now))
      ensures copied ==> IsLocal() && forall now :: Paste(now) == if now >= madeAt + 150 then text else ""
      ensures copied ==> CurrentExposure() == InClipboard(kind, copiedAt, copiedAt + clearAfter)
      ensures copied ==>
        && holder.Provider? && holder.content == content && content.secret == Some(text) && content.copiedAt == madeAt
        && active == Some(ActiveCopy(kind, copiedAt, copiedAt + clearAfter))
        && ledger.generation == (old(ledger.generation) + 1) % U64
      ensures forall p :: p in old(providers) && copied ==> p.secret.None?
      ensures fresh(providers - old(providers)) && old(providers) <= providers
    {
      hide Standing, Owing;
      if !display {
        return false;
      }
      var made := new SecretContent(text, madeAt);
      if !accepted {
        made.Expire();
        providers := providers + {made};
        return false;
      }
      Publish(made, kind, copiedAt, copiedAt + clearAfter);
      copied := true;
    }

    /** The display has taken the content: it takes the place of the one before it. */
    method Publish(made: SecretContent, kind: SensitiveKind, copiedAt: int, expiresAt: int)
      requires Valid() && made !in providers && made.secret.Some?
      modifies this, ledger, providers`secret
      ensures Valid() && holder == Provider(made) && content == made && providers == old(providers) + {made}
      ensures active == Some(ActiveCopy(kind, copiedAt, expiresAt)) && history == old(history) + [Copied]
      ensures ledger.generation == (old(ledger.generation) + 1) % U64
      ensures forall p :: p in old(providers) ==> p.secret.None?
      ensures made.secret == old(made.secret)
    {
      hide Standing, Owing;
      holder := Provider(made);
      timer := None;
      ExpireContent();
      content := made;
      providers := providers + {made};
      active := Some(ActiveCopy(kind, copiedAt, expiresAt));
      var g := ledger.RecordCopy();
      timer := Some(g);
      HistoryStep(history, Copied);
      history := history + [Copied];
    }

    /** The armed timer fires: the secret is gone, and the clipboard is wiped exactly when it is ours. Wiped
        or not, nothing that was copied can be pasted any more. */
    method TimerFires(display: bool, focused: bool) returns (wiped: bool)
      requires Valid() && timer.Some?
      modifies this, ledger, providers`secret
      ensures Valid() && history == old(history) + [Expired(display)]
      ensures wiped <==> display && old(IsLocal())
      ensures holder == if wiped && focused then OwnText("") else old(holder)
      ensures (holder.Provider? || (wiped && focused)) ==> IsLocal() && forall now :: Paste(now) == ""
      ensures !CurrentExposure().InClipboard?
      ensures forall p :: p in providers ==> p.secret.None?
      ensures providers == old(providers)
    {
      hide Standing, Owing;
      StandingIsOwing(history);
      HistoryStep(history, Expired(display));
      var generation := timer.value;
      timer := None;
      ExpireContent();
      active := None;
      if display {
        wiped := ledger.Expire(generation, IsLocal());
        if wiped {
          WipeOwnedClipboard(focused);
        }
      } else {
        wiped := false;
      }
      history := history + [Expired(display)];
    }

    /** A session ends in whatever way: the clipboard is wiped exactly when it is ours and something is
        still owed. */
    method ClearNow(display: bool, focused: bool) returns (wiped: bool)
      requires Valid()
      modifies this, ledger, providers`secret
      ensures Valid() && history == old(history) + [Cleared(display)]
      ensures wiped <==> display && old(IsLocal()) && Owing(old(history))
      ensures holder == if wiped && focused then OwnText("") else old(holder)
      ensures (holder.Provider? || (wiped && focused)) ==> IsLocal() && forall now :: Paste(now) == ""
      ensures !CurrentExposure().InClipboard?
      ensures forall p :: p in providers ==> p.secret.None?
      ensures providers == old(providers)
    {
      hide Standing, Owing;
      HistoryStep(history, Cleared(display));
      timer := None;
      ExpireContent();
      active := None;
      if display {
        wiped := ledger.TakePending(IsLocal());
        if wiped {
          WipeOwnedClipboard(focused);
        }
      } else {
        wiped := false;
      }
      history := history + [Cleared(display)];
    }

    /** The `changed` signal: a standing copy that lost the clipboard is dropped, and owes nothing more. */
    method ClipboardChanged() returns (released: bool)
      requires Valid()
      modifies this, ledger, providers`secret
      ensures Valid()
      ensures released <==> !old(IsLocal()) && Standing(old(history))
      ensures history == if released then old(history) + [TakenOver] else old(history)
      ensures released ==> forall p :: p in providers ==> p.secret.None?
      ensures holder == old(holder) && providers == old(providers)
      ensures released ==> !CurrentExposure().InClipboard?
    {
      hide Standing, Owing;
      if IsLocal() {
        return false;
      }
      if active.None? {
        return false;
      }
      HistoryStep(history, TakenOver);
      timer := None;
      ExpireContent();
      active := None;
      var _ := ledger.TakePending(false);
      history := history + [TakenOver];
      released := true;
    }

    /** The outside world: another application copies, or a text of this application is copied. Neither
        touches the state before the signal arrives. */
    method HolderChanges(next: Holder)
      requires Valid() && !next.Provider?
      modifies this`holder, this`history
      ensures Valid() && holder == next && history == old(history) + [Elsewhere]
      ensures next.OwnText? ==> IsLocal() && forall now :: Paste(now) == next.text
    {
      hide Standing, Owing;
      HistoryStep(history, Elsewhere);
      holder := next;
      history := history + [Elsewhere];
    }

    method BeginDecrypting()
      requires Valid()
      modifies this`decrypting
      ensures Valid() && decrypting == if old(decrypting) == U32_MAX then U32_MAX else old(decrypting) + 1
      ensures IsLocal() ==> forall now :: Paste(now) == old(Paste(now))
    {
      if decrypting < U32_MAX {
        decrypting := decrypting + 1;
      }
    }

    method EndDecrypting()
      requires Valid()
      modifies this`decrypting
      ensures Valid() && decrypting == if old(decrypting) == 0 then 0 else old(decrypting) - 1
      ensures IsLocal() ==> forall now :: Paste(now) == old(Paste(now))
    {
      if decrypting > 0 {
        decrypting := decrypting - 1;
      }
    }
  }

  /** A copy after which nothing ended it. */
  ghost predicate StandsFrom(history: seq<Event>, i: int) {
    && 0 <= i < |history| && history[i] == Copied
    && forall j :: i < j < |history| ==> history[j] == Copied || history[j] == Elsewhere
  }

  lemma {:induction false} StandingIff(history: seq<Event>)
    ensures Standing(history) <==> exists i :: StandsFrom(history, i)
  {
    if history != [] {
      var n := |history| - 1;
      StandingIff(history[..n]);
      if Standing(history) {
        if history[n] == Copied {
          assert StandsFrom(history, n);
        } else {
          var i :| StandsFrom(history[..n], i);
          assert StandsFrom(history, i);
        }
      }
      if i :| StandsFrom(history, i) {
        assert i < n ==> StandsFrom(history[..n], i);
      }
    }
  }
}
