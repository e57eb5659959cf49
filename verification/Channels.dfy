/** The channel handshake between two ADNL peers (adnl/adnl.go, adnl/channel.go): key setup, create and confirm, and what holds
    over every run on a network that drops, repeats and reorders. */
module Channels {
  import opened Options
  import opened TlBytes

  /** Key agreement and hashing, as given functions. */
  datatype Crypto = Crypto(pub: nat -> nat, shared: (nat, nat) -> Option<seq<Byte>>, hash: seq<Byte> -> nat)

  /** Both sides of a key exchange with real keys get a secret, and the same one. */
  ghost predicate Symmetric(c: Crypto) {
    forall a, b :: c.shared(a, c.pub(b)).Some? && c.shared(a, c.pub(b)) == c.shared(b, c.pub(a))
  }

  datatype Keys = Keys(enc: seq<Byte>, dec: seq<Byte>, id: nat, idEnc: nat)

  function Reverse(s: seq<Byte>): (r: seq<Byte>)
    ensures |r| == |s|
  {
    seq(|s|, i requires 0 <= i < |s| => s[|s| - 1 - i])
  }

  /** The shared secret one way, its reverse the other way; the peer with the larger id swaps them. */
  function SetupKeys(c: Crypto, ourId: nat, theirId: nat, key: nat, theirKey: nat): Option<Keys> {
    var secret :- c.shared(key, theirKey);
    var (enc, dec) :=
      if theirId < ourId then (secret, Reverse(secret))
      else if theirId == ourId then (secret, secret)
      else (Reverse(secret), secret);
    Some(Keys(enc, dec, c.hash(dec), c.hash(enc)))
  }

  /** Key setup as it runs: the reversing loop, then the swap. */
  method Setup(c: Crypto, ourId: nat, theirId: nat, key: nat, theirKey: nat) returns (keys: Option<Keys>)
    ensures keys == SetupKeys(c, ourId, theirId, key, theirKey)
  {
    var secret := c.shared(key, theirKey);
    if secret.None? {
      return None;
    }
    var decKey := secret.value;
    var n := |decKey|;
    var buf := new Byte[n](_ => 0);
    for i := 0 to n
      invariant forall k :: 0 <= k < i ==> buf[n - 1 - k] == decKey[k]
    {
      buf[n - 1 - i] := decKey[i];
    }
    var encKey := buf[..];
    forall i | 0 <= i < n
      ensures encKey[i] == Reverse(decKey)[i]
    {
      assert buf[n - 1 - (n - 1 - i)] == decKey[n - 1 - i];
    }
    assert encKey == Reverse(decKey);
    if theirId < ourId {
      encKey, decKey := decKey, encKey;
    } else if theirId == ourId {
      encKey := decKey;
    }
    return Some(Keys(encKey, decKey, c.hash(decKey), c.hash(encKey)));
  }

  /** The side with the larger id encrypts with the secret itself and decrypts with it read backwards, the other side the other way
      round, and equal ids use the secret both ways. The ids of the channel are the hashes of its keys. */
  lemma SetupIs(c: Crypto, ourId: nat, theirId: nat, key: nat, theirKey: nat)
    ensures SetupKeys(c, ourId, theirId, key, theirKey).Some? <==> c.shared(key, theirKey).Some?
    ensures c.shared(key, theirKey).Some? ==>
              var secret, k := c.shared(key, theirKey).value, SetupKeys(c, ourId, theirId, key, theirKey).value;
              && (ourId > theirId ==> k.enc == secret && Backwards(k.dec, secret))
              && (ourId < theirId ==> k.dec == secret && Backwards(k.enc, secret))
              && (ourId == theirId ==> k.enc == secret && k.dec == secret)
              && k.id == c.hash(k.dec) && k.idEnc == c.hash(k.enc)
  {
  }

  ghost predicate Backwards(a: seq<Byte>, b: seq<Byte>) {
    |a| == |b| && forall i :: 0 <= i < |a| ==> a[i] == b[|b| - 1 - i]
  }

  /** What one side encrypts with, the other decrypts with, and the channel ids agree accordingly. */
  ghost predicate Mirrors(a: Option<Keys>, b: Option<Keys>) {
    && a.Some? && b.Some?
    && SameKeys(a.value, b.value)
  }

  ghost predicate SameKeys(a: Keys, b: Keys) {
    a.enc == b.dec && a.dec == b.enc && a.idEnc == b.id && a.id == b.idEnc
  }

  lemma SetupMirrors(c: Crypto, idA: nat, idB: nat, a: nat, b: nat)
    requires Symmetric(c)
    ensures Mirrors(SetupKeys(c, idA, idB, a, c.pub(b)), SetupKeys(c, idB, idA, b, c.pub(a)))
  {
  }

  /** `peerKey` and `keys` are unset while the channel is pending. */
  datatype Channel = Channel(key: nat, initDate: int, peerKey: Option<nat>, peerDate: int, wantConfirm: bool, keys: Option<Keys>) {
    predicate Ready() {
      keys.Some?
    }
  }

  datatype Message =
    | CreateChannel(key: nat, date: int)
    | ConfirmChannel(key: nat, peerKey: nat, date: int)

  function Pending(key: nat, initDate: int): Channel {
    Channel(key, initDate, None, 0, false, None)
  }

  function Created(c: Crypto, ourId: nat, theirId: nat, ch: Option<Channel>, m: Message, newKey: nat, now: int): Option<Channel>
    requires m.CreateChannel?
  {
    if ch.Some? && ch.value.peerKey == Some(m.key) then ch
    else if ch.Some? && ch.value.peerDate > 0 && m.date <= ch.value.peerDate then ch
    else
      var key, initDate := if ch.Some? then ch.value.key else newKey, if ch.Some? then ch.value.initDate else now;
      var keys := SetupKeys(c, ourId, theirId, key, m.key);
      if keys.None? then ch else Some(Channel(key, initDate, Some(m.key), m.date, true, keys))
  }

  function Confirmed(c: Crypto, ourId: nat, theirId: nat, ch: Option<Channel>, m: Message): Option<Channel>
    requires m.ConfirmChannel?
  {
    if ch.None? || c.pub(ch.value.key) != m.peerKey then ch
    else if ch.value.peerKey == Some(m.key) && ch.value.Ready() then ch
    else if ch.value.peerKey != Some(m.key) && ch.value.peerDate > 0 && m.date <= ch.value.peerDate then ch
    else
      var k := ch.value;
      var keys := SetupKeys(c, ourId, theirId, k.key, m.key);
      if keys.None? then ch else Some(Channel(k.key, k.initDate, Some(m.key), m.date, false, keys))
  }

  /** The handshake message that goes out with a request: create while pending, confirm until the peer uses the channel, and
      none in a packet that is forced out of a ready channel. */
  function Announce(c: Crypto, ch: Channel, forceRoot: bool): Option<Message> {
    if !ch.Ready() then Some(CreateChannel(c.pub(ch.key), ch.initDate))
    else if !forceRoot && ch.wantConfirm && ch.peerKey.Some? then Some(ConfirmChannel(c.pub(ch.key), ch.peerKey.value, ch.initDate))
    else None
  }

  /** The peer's key is new and not older than what we have of it. */
  predicate IsNews(ch: Option<Channel>, key: nat, date: int) {
    ch.Some? ==> ch.value.peerKey != Some(key) && (ch.value.peerDate > 0 ==> date > ch.value.peerDate)
  }

  /** A create message is taken exactly when it brings news and key agreement works; the channel then stands on our own key, which
      is kept if there is one, and asks for confirmation. */
  lemma CreateTakenIff(c: Crypto, ourId: nat, theirId: nat, ch: Option<Channel>, m: Message, newKey: nat, now: int)
    requires m.CreateChannel?
    ensures var ch' := Created(c, ourId, theirId, ch, m, newKey, now);
            var ours := if ch.Some? then ch.value.key else newKey;
            if IsNews(ch, m.key, m.date) && c.shared(ours, m.key).Some? then
              && ch'.Some? && ch'.value.Ready() && ch'.value.wantConfirm
              && ch'.value.key == ours && ch'.value.initDate == (if ch.Some? then ch.value.initDate else now)
              && ch'.value.peerKey == Some(m.key) && ch'.value.peerDate == m.date
              && ch'.value.keys == SetupKeys(c, ourId, theirId, ours, m.key)
            else ch' == ch
  {
    SetupIs(c, ourId, theirId, if ch.Some? then ch.value.key else newKey, m.key);
  }

  /** A confirmation is taken exactly when it names our key and brings news, or completes a channel that is not ready; it then needs
      no more confirmation. */
  lemma ConfirmTakenIff(c: Crypto, ourId: nat, theirId: nat, ch: Option<Channel>, m: Message)
    requires m.ConfirmChannel?
    ensures var ch' := Confirmed(c, ourId, theirId, ch, m);
            if ch.Some? && m.peerKey == c.pub(ch.value.key) && c.shared(ch.value.key, m.key).Some?
               && (IsNews(ch, m.key, m.date) || (ch.value.peerKey == Some(m.key) && !ch.value.Ready())) then
              && ch' == Some(Channel(ch.value.key, ch.value.initDate, Some(m.key), m.date, false,
                                     SetupKeys(c, ourId, theirId, ch.value.key, m.key)))
              && ch'.value.Ready()
            else ch' == ch
  {
    if ch.Some? {
      SetupIs(c, ourId, theirId, ch.value.key, m.key);
    }
  }

  /** Create is announced by every channel that is not ready, confirm by a ready one that the peer has not used, outside forced root
      packets; nothing by any other. */
  lemma AnnounceIs(c: Crypto, ch: Channel, forceRoot: bool)
    ensures !ch.Ready() ==> Announce(c, ch, forceRoot) == Some(CreateChannel(c.pub(ch.key), ch.initDate))
    ensures ch.Ready() && ch.wantConfirm && ch.peerKey.Some? && !forceRoot ==>
              Announce(c, ch, forceRoot) == Some(ConfirmChannel(c.pub(ch.key), ch.peerKey.value, ch.initDate))
    ensures ch.Ready() && (forceRoot || !ch.wantConfirm) ==> Announce(c, ch, forceRoot) == None
  {
  }

  /** One side of the connection. */
  class Endpoint {
    const crypto: Crypto
    const ourId: nat
    const theirId: nat
    var channel: Option<Channel>

    constructor (crypto: Crypto, ourId: nat, theirId: nat)
      ensures this.crypto == crypto && this.ourId == ourId && this.theirId == theirId && channel == None
    {
      this.crypto, this.ourId, this.theirId, channel := crypto, ourId, theirId, None;
    }

    method ProcessCreateChannel(m: Message, newKey: nat, now: int) returns (ok: bool)
      requires m.CreateChannel?
      modifies this
      ensures channel == Created(crypto, ourId, theirId, old(channel), m, newKey, now)
      ensures !ok ==> channel == old(channel)
    {
      var key, initDate := newKey, now;
      if channel.Some? {
        if channel.value.peerKey == Some(m.key) {
          return true;
        }
        if channel.value.peerDate > 0 && m.date <= channel.value.peerDate {
          return true;
        }
        key, initDate := channel.value.key, channel.value.initDate;
      }
      var keys := Setup(crypto, ourId, theirId, key, m.key);
      if keys.None? {
        return false;
      }
      channel := Some(Channel(key, initDate, Some(m.key), m.date, true, keys));
      return true;
    }

    method ProcessConfirmChannel(m: Message) returns (ok: bool)
      requires m.ConfirmChannel?
      modifies this
      ensures channel == Confirmed(crypto, ourId, theirId, old(channel), m)
      ensures ok ==> old(channel).Some? && crypto.pub(old(channel).value.key) == m.peerKey
      ensures !ok ==> channel == old(channel)
    {
      if channel.None? || crypto.pub(channel.value.key) != m.peerKey {
        return false;
      }
      var ch := channel.value;
      if ch.peerKey == Some(m.key) && ch.Ready() {
        return true;
      }
      if ch.peerKey != Some(m.key) && ch.peerDate > 0 && m.date <= ch.peerDate {
        return true;
      }
      var keys := Setup(crypto, ourId, theirId, ch.key, m.key);
      if keys.None? {
        return false;
      }
      channel := Some(Channel(ch.key, ch.initDate, Some(m.key), m.date, false, keys));
      return true;
    }

    /** Builds a request: makes a pending channel if there is none, and says what handshake message it carries. */
    method BuildRequest(newKey: nat, now: int, forceRoot: bool) returns (m: Option<Message>)
      modifies this
      ensures channel == Some(if old(channel).Some? then old(channel).value else Pending(newKey, now))
      ensures m == Announce(crypto, channel.value, forceRoot)
    {
      if channel.Some? && channel.value.Ready() {
        var ch := channel.value;
        if !forceRoot && ch.wantConfirm && ch.peerKey.Some? {
          return Some(ConfirmChannel(crypto.pub(ch.key), ch.peerKey.value, ch.initDate));
        }
        return None;
      }
      if channel.None? {
        channel := Some(Pending(newKey, now));
      }
      return Some(CreateChannel(crypto.pub(channel.value.key), channel.value.initDate));
    }

    /** A packet came in over the channel, so the peer needs no more confirmation. */
    method ProcessChannelPacket()
      modifies this
      ensures channel == Used(old(channel))
    {
      if channel.Some? && channel.value.Ready() {
        channel := Some(channel.value.(wantConfirm := false));
      }
    }

    /** The peer started over: its key is forgotten, our own stays. */
    method ForgetPeer()
      modifies this
      ensures channel == Forgotten(old(channel))
    {
      if channel.Some? {
        channel := Some(Pending(channel.value.key, channel.value.initDate));
      }
    }

    /** We start over, with a new key at the next handshake. */
    method Reinit()
      modifies this
      ensures channel == None
    {
      channel := None;
    }
  }

  function Used(ch: Option<Channel>): Option<Channel> {
    if ch.Some? && ch.value.Ready() then Some(ch.value.(wantConfirm := false)) else ch
  }

  function Forgotten(ch: Option<Channel>): Option<Channel> {
    if ch.Some? then Some(Pending(ch.value.key, ch.value.initDate)) else None
  }

  // ---- Two peers and a network ----

  /** The two peers and everything each of them ever sent; a message may be delivered any number of times or never. */
  datatype World = World(channels: seq<Option<Channel>>, sent: seq<set<Message>>)

  datatype Action =
    | Request(newKey: nat, now: int, forceRoot: bool)
    | Deliver(m: Message, newKey: nat, now: int)
    | ChannelPacket
    | PeerReinit
    | LocalReinit

  const START: World := World([None, None], [{}, {}])

  ghost predicate Shape(w: World) {
    |w.channels| == 2 && |w.sent| == 2
  }

  /** Peer `i` acts. A delivered message is one the other peer sent; anything else is no step. `PeerReinit` forgets the peer's
      key and keeps our own, `LocalReinit` forgets the channel. */
  function Step(c: Crypto, ids: (nat, nat), w: World, i: nat, a: Action): (w': World)
    requires Shape(w) && i < 2
    ensures Shape(w')
  {
    var ch := w.channels[i];
    var ourId, theirId := if i == 0 then ids.0 else ids.1, if i == 0 then ids.1 else ids.0;
    match a
    case Request(newKey, now, forceRoot) =>
      var ch' := if ch.Some? then ch.value else Pending(newKey, now);
      var m := Announce(c, ch', forceRoot);
      World(w.channels[i := Some(ch')], if m.Some? then w.sent[i := w.sent[i] + {m.value}] else w.sent)
    case Deliver(m, newKey, now) =>
      if m !in w.sent[1 - i] then w
      else if m.CreateChannel? then w.(channels := w.channels[i := Created(c, ourId, theirId, ch, m, newKey, now)])
      else w.(channels := w.channels[i := Confirmed(c, ourId, theirId, ch, m)])
    case ChannelPacket => w.(channels := w.channels[i := Used(ch)])
    case PeerReinit => w.(channels := w.channels[i := Forgotten(ch)])
    case LocalReinit => w.(channels := w.channels[i := None])
  }

  function Run(c: Crypto, ids: (nat, nat), w: World, acts: seq<(nat, Action)>): (w': World)
    requires Shape(w) && forall k :: 0 <= k < |acts| ==> acts[k].0 < 2
    ensures Shape(w')
  {
    if acts == [] then w
    else
      var last := acts[|acts| - 1];
      Step(c, ids, Run(c, ids, w, acts[..|acts| - 1]), last.0, last.1)
  }

  /** A channel knows no peer key, or the other peer's only key with the session keys set up from it. */
  ghost predicate Sound(c: Crypto, ourId: nat, theirId: nat, ch: Option<Channel>, other: Option<Channel>) {
    ch.Some? ==>
      && (ch.value.peerKey.None? <==> ch.value.keys.None?)
      && (ch.value.peerKey.Some? ==>
            && other.Some?
            && ch.value.peerKey.value == c.pub(other.value.key)
            && ch.value.keys == SetupKeys(c, ourId, theirId, ch.value.key, c.pub(other.value.key)))
  }

  /** Every message names the sender's only key, and as the peer's key the other side's only key. */
  ghost predicate Honest(c: Crypto, sender: Option<Channel>, other: Option<Channel>, m: Message) {
    && sender.Some? && m.key == c.pub(sender.value.key)
    && (m.ConfirmChannel? ==> other.Some? && m.peerKey == c.pub(other.value.key))
  }

  ghost predicate Inv(c: Crypto, ids: (nat, nat), w: World) {
    && Shape(w)
    && Sound(c, ids.0, ids.1, w.channels[0], w.channels[1])
    && Sound(c, ids.1, ids.0, w.channels[1], w.channels[0])
    && (forall m :: m in w.sent[0] ==> Honest(c, w.channels[0], w.channels[1], m))
    && (forall m :: m in w.sent[1] ==> Honest(c, w.channels[1], w.channels[0], m))
  }

  ghost predicate KeepsKey(before: Option<Channel>, after: Option<Channel>) {
    before.Some? ==> after.Some? && after.value.key == before.value.key && after.value.initDate == before.value.initDate
  }

  ghost predicate KeepsKeys(w: World, w': World)
    requires Shape(w) && Shape(w')
  {
    KeepsKey(w.channels[0], w'.channels[0]) && KeepsKey(w.channels[1], w'.channels[1])
  }

  lemma RequestKeepsInv(c: Crypto, ids: (nat, nat), w: World, i: nat, a: Action)
    requires Inv(c, ids, w) && i < 2 && a.Request?
    ensures Inv(c, ids, Step(c, ids, w, i, a)) && KeepsKeys(w, Step(c, ids, w, i, a))
  {
  }

  lemma DeliverKeepsInv(c: Crypto, ids: (nat, nat), w: World, i: nat, a: Action)
    requires Inv(c, ids, w) && i < 2 && a.Deliver?
    ensures Inv(c, ids, Step(c, ids, w, i, a)) && KeepsKeys(w, Step(c, ids, w, i, a))
  {
  }

  lemma OtherKeepsInv(c: Crypto, ids: (nat, nat), w: World, i: nat, a: Action)
    requires Inv(c, ids, w) && i < 2 && (a.ChannelPacket? || a.PeerReinit?)
    ensures Inv(c, ids, Step(c, ids, w, i, a)) && KeepsKeys(w, Step(c, ids, w, i, a))
  {
  }

  /** Until it starts over each peer has one channel key for good, and every such step keeps the two sides consistent. */
  lemma StepKeepsInv(c: Crypto, ids: (nat, nat), w: World, i: nat, a: Action)
    requires Inv(c, ids, w) && i < 2 && !a.LocalReinit?
    ensures Inv(c, ids, Step(c, ids, w, i, a)) && KeepsKeys(w, Step(c, ids, w, i, a))
  {
    if a.Request? {
      RequestKeepsInv(c, ids, w, i, a);
    } else if a.Deliver? {
      DeliverKeepsInv(c, ids, w, i, a);
    } else {
      OtherKeepsInv(c, ids, w, i, a);
    }
  }

  lemma {:induction false} RunKeepsInv(c: Crypto, ids: (nat, nat), w: World, acts: seq<(nat, Action)>)
    requires Inv(c, ids, w) && forall k :: 0 <= k < |acts| ==> acts[k].0 < 2 && !acts[k].1.LocalReinit?
    ensures Inv(c, ids, Run(c, ids, w, acts)) && KeepsKeys(w, Run(c, ids, w, acts))
  {
    if acts != [] {
      var front, last := acts[..|acts| - 1], acts[|acts| - 1];
      RunKeepsInv(c, ids, w, front);
      StepKeepsInv(c, ids, Run(c, ids, w, front), last.0, last.1);
    }
  }

  ghost predicate BothReady(w: World)
    requires Shape(w)
  {
    w.channels[0].Some? && w.channels[0].value.Ready() && w.channels[1].Some? && w.channels[1].value.Ready()
  }

  /** Over every run from the start in which no peer starts over: whenever both channels are ready they mirror each other. */
  lemma ReadyChannelsMirror(c: Crypto, ids: (nat, nat), acts: seq<(nat, Action)>)
    requires Symmetric(c) && forall k :: 0 <= k < |acts| ==> acts[k].0 < 2 && !acts[k].1.LocalReinit?
    ensures var w := Run(c, ids, START, acts);
            BothReady(w) ==> Mirrors(w.channels[0].value.keys, w.channels[1].value.keys)
  {
    RunKeepsInv(c, ids, START, acts);
    var w := Run(c, ids, START, acts);
    if w.channels[0].Some? && w.channels[1].Some? {
      SetupMirrors(c, ids.0, ids.1, w.channels[0].value.key, w.channels[1].value.key);
    }
  }

  /** The handshake gets there: one request each way, both delivered, makes both channels ready. */
  lemma HandshakeCompletes(c: Crypto, ids: (nat, nat), a: nat, b: nat, now: int)
    requires Symmetric(c)
    ensures var acts := [(0, Request(a, now, false)), (1, Deliver(CreateChannel(c.pub(a), now), b, now)), (1, Request(b, now, false)),
                         (0, Deliver(ConfirmChannel(c.pub(b), c.pub(a), now), a, now))];
            BothReady(Run(c, ids, START, acts))
  {
    var a0, a1 := (0, Request(a, now, false)), (1, Deliver(CreateChannel(c.pub(a), now), b, now));
    var a2, a3 := (1, Request(b, now, false)), (0, Deliver(ConfirmChannel(c.pub(b), c.pub(a), now), a, now));
    var w0 := Step(c, ids, START, 0, a0.1);
    var w1 := Step(c, ids, w0, 1, a1.1);
    var w2 := Step(c, ids, w1, 1, a2.1);
    assert [a0][..0] == [] && [a0, a1][..1] == [a0] && [a0, a1, a2][..2] == [a0, a1] && [a0, a1, a2, a3][..3] == [a0, a1, a2];
    assert Run(c, ids, START, [a0]) == w0;
    assert Run(c, ids, START, [a0, a1]) == w1;
    assert Run(c, ids, START, [a0, a1, a2]) == w2;
    assert ConfirmChannel(c.pub(b), c.pub(a), now) in w2.sent[1];
  }

  // ---- When a peer may start over ----

  ghost predicate IsKey(c: Crypto, key: nat) {
    exists k :: key == c.pub(k)
  }

  /** The session keys are those of our key and the peer key we know. */
  ghost predicate Fit(c: Crypto, ourId: nat, theirId: nat, ch: Option<Channel>) {
    ch.Some? ==>
      && (ch.value.peerKey.None? <==> ch.value.keys.None?)
      && (ch.value.peerKey.Some? ==>
            IsKey(c, ch.value.peerKey.value) && ch.value.keys == SetupKeys(c, ourId, theirId, ch.value.key, ch.value.peerKey.value))
  }

  ghost predicate AllFit(c: Crypto, ids: (nat, nat), w: World) {
    && Shape(w)
    && Fit(c, ids.0, ids.1, w.channels[0])
    && Fit(c, ids.1, ids.0, w.channels[1])
    && (forall i, m :: 0 <= i < 2 && m in w.sent[i] ==> IsKey(c, m.key))
  }

  lemma StepKeepsFit(c: Crypto, ids: (nat, nat), w: World, i: nat, a: Action)
    requires AllFit(c, ids, w) && i < 2
    ensures AllFit(c, ids, Step(c, ids, w, i, a))
  {
  }

  lemma {:induction false} RunKeepsFit(c: Crypto, ids: (nat, nat), w: World, acts: seq<(nat, Action)>)
    requires AllFit(c, ids, w) && forall k :: 0 <= k < |acts| ==> acts[k].0 < 2
    ensures AllFit(c, ids, Run(c, ids, w, acts))
  {
    if acts != [] {
      var front, last := acts[..|acts| - 1], acts[|acts| - 1];
      RunKeepsFit(c, ids, w, front);
      StepKeepsFit(c, ids, Run(c, ids, w, front), last.0, last.1);
    }
  }

  /** Different pairs of keys have different secrets. */
  ghost predicate Apart(c: Crypto) {
    forall a, b, x, y :: c.shared(a, c.pub(b)) == c.shared(x, c.pub(y)) ==> (a == x && b == y) || (a == y && b == x)
  }

  /** Each side knows the key the other one has now. */
  ghost predicate KnowEachOther(c: Crypto, a: Channel, b: Channel) {
    a.peerKey == Some(c.pub(b.key)) && b.peerKey == Some(c.pub(a.key))
  }

  /** Over every run, local reinits included, two ready channels mirror each other exactly when each knows the other's
      present key. */
  lemma MirrorIffKnown(c: Crypto, ids: (nat, nat), acts: seq<(nat, Action)>)
    requires Symmetric(c) && Apart(c) && forall k :: 0 <= k < |acts| ==> acts[k].0 < 2
    ensures var w := Run(c, ids, START, acts);
            BothReady(w) && w.channels[0].value.key != w.channels[1].value.key ==>
              (Mirrors(w.channels[0].value.keys, w.channels[1].value.keys) <==>
               KnowEachOther(c, w.channels[0].value, w.channels[1].value))
  {
    RunKeepsFit(c, ids, START, acts);
    var w := Run(c, ids, START, acts);
    if BothReady(w) && w.channels[0].value.key != w.channels[1].value.key {
      FitMirrorIff(c, ids, w.channels[0].value, w.channels[1].value);
    }
  }

  lemma FitMirrorIff(c: Crypto, ids: (nat, nat), a: Channel, b: Channel)
    requires Symmetric(c) && Apart(c) && a.Ready() && b.Ready() && a.key != b.key
    requires Fit(c, ids.0, ids.1, Some(a)) && Fit(c, ids.1, ids.0, Some(b))
    ensures Mirrors(a.keys, b.keys) <==> KnowEachOther(c, a, b)
  {
    if KnowEachOther(c, a, b) {
      SetupMirrors(c, ids.0, ids.1, a.key, b.key);
    }
    if Mirrors(a.keys, b.keys) {
      var x :| a.peerKey.value == c.pub(x);
      var y :| b.peerKey.value == c.pub(y);
      SameSecret(c, ids, a.key, c.pub(x), b.key, c.pub(y));
      assert c.shared(a.key, c.pub(x)) == c.shared(b.key, c.pub(y));
    }
  }

  lemma SameSecret(c: Crypto, ids: (nat, nat), a: nat, peerOfA: nat, b: nat, peerOfB: nat)
    requires Mirrors(SetupKeys(c, ids.0, ids.1, a, peerOfA), SetupKeys(c, ids.1, ids.0, b, peerOfB))
    ensures c.shared(a, peerOfA) == c.shared(b, peerOfB)
  {
  }

  lemma FiveSteps(c: Crypto, ids: (nat, nat), w: World, acts: seq<(nat, Action)>, w0: World, w1: World, w2: World, w3: World)
    requires Shape(w) && |acts| == 5 && forall k :: 0 <= k < 5 ==> acts[k].0 < 2
    requires Shape(w0) && Shape(w1) && Shape(w2) && Shape(w3)
    requires w0 == Step(c, ids, w, acts[0].0, acts[0].1) && w1 == Step(c, ids, w0, acts[1].0, acts[1].1)
    requires w2 == Step(c, ids, w1, acts[2].0, acts[2].1) && w3 == Step(c, ids, w2, acts[3].0, acts[3].1)
    ensures Run(c, ids, w, acts) == Step(c, ids, w3, acts[4].0, acts[4].1)
  {
    hide Step;
    assert acts[..4][..3] == acts[..3] && acts[..3][..2] == acts[..2] && acts[..2][..1] == acts[..1] && acts[..1][..0] == [];
    assert Run(c, ids, w, acts[..1]) == w0;
    assert Run(c, ids, w, acts[..2]) == w1;
    assert Run(c, ids, w, acts[..3]) == w2;
    assert Run(c, ids, w, acts[..4]) == w3;
  }

  /** A run that ends with two ready channels that do not mirror each other: the first peer starts over and then gets the
      other's first message, which was late. */
  lemma LateCreateAfterReinit(c: Crypto, ids: (nat, nat), a: nat, again: nat, b: nat, now: int)
    requires Symmetric(c) && Apart(c) && c.pub(a) != c.pub(again) && again != b
    ensures var acts := [(1, Request(b, now, false)), (0, Request(a, now, false)), (1, Deliver(CreateChannel(c.pub(a), now), b, now)),
                         (0, LocalReinit), (0, Deliver(CreateChannel(c.pub(b), now), again, now))];
            var w := Run(c, ids, START, acts);
            BothReady(w) && !Mirrors(w.channels[0].value.keys, w.channels[1].value.keys)
  {
    var a0, a1, a2 := (1, Request(b, now, false)), (0, Request(a, now, false)), (1, Deliver(CreateChannel(c.pub(a), now), b, now));
    var a3, a4 := (0, LocalReinit), (0, Deliver(CreateChannel(c.pub(b), now), again, now));
    var w0 := Step(c, ids, START, 1, a0.1);
    var w1 := Step(c, ids, w0, 0, a1.1);
    var w2 := Step(c, ids, w1, 1, a2.1);
    var w3 := Step(c, ids, w2, 0, a3.1);
    FiveSteps(c, ids, START, [a0, a1, a2, a3, a4], w0, w1, w2, w3);
    assert CreateChannel(c.pub(b), now) in w3.sent[1];
    MirrorIffKnown(c, ids, [a0, a1, a2, a3, a4]);
  }

  /** Starting over always heals: from any state, a peer that starts over with a later date and has one request each way
      delivered shares a channel with the other again. */
  lemma StartingOverHeals(c: Crypto, ids: (nat, nat), w: World, a: nat, b: nat, now: int)
    requires Symmetric(c) && Shape(w)
    requires w.channels[1].Some? ==> w.channels[1].value.peerDate < now && w.channels[1].value.peerKey != Some(c.pub(a))
    ensures var theirs := if w.channels[1].Some? then w.channels[1].value else Pending(b, now);
            var w' := Run(c, ids, w, [(0, LocalReinit), (0, Request(a, now, false)), (1, Deliver(CreateChannel(c.pub(a), now), b, now)),
                                      (1, Request(b, now, false)),
                                      (0, Deliver(ConfirmChannel(c.pub(theirs.key), c.pub(a), theirs.initDate), a, now))]);
            BothReady(w') && Mirrors(w'.channels[0].value.keys, w'.channels[1].value.keys)
  {
    var theirs := if w.channels[1].Some? then w.channels[1].value else Pending(b, now);
    var a0, a1, a2 := (0, LocalReinit), (0, Request(a, now, false)), (1, Deliver(CreateChannel(c.pub(a), now), b, now));
    var a3, a4 := (1, Request(b, now, false)), (0, Deliver(ConfirmChannel(c.pub(theirs.key), c.pub(a), theirs.initDate), a, now));
    var w0 := Step(c, ids, w, 0, a0.1);
    var w1 := Step(c, ids, w0, 0, a1.1);
    var w2 := Step(c, ids, w1, 1, a2.1);
    var w3 := Step(c, ids, w2, 1, a3.1);
    FiveSteps(c, ids, w, [a0, a1, a2, a3, a4], w0, w1, w2, w3);
    assert a2.1.m in w1.sent[0];
    assert a4.1.m in w3.sent[1];
    SetupMirrors(c, ids.0, ids.1, a, theirs.key);
  }

  /** The two endpoints with what each of them sent. */
  class Connection {
    const crypto: Crypto
    const ids: (nat, nat)
    const ends: (Endpoint, Endpoint)
    ghost var sent: seq<set<Message>>

    ghost predicate Valid()
      reads this, ends.0, ends.1
    {
      && ends.0 != ends.1 && |sent| == 2
      && ends.0.crypto == crypto && ends.0.ourId == ids.0 && ends.0.theirId == ids.1
      && ends.1.crypto == crypto && ends.1.ourId == ids.1 && ends.1.theirId == ids.0
      && AllFit(crypto, ids, View())
    }

    ghost function View(): World
      reads this, ends.0, ends.1
    {
      World([ends.0.channel, ends.1.channel], sent)
    }

    constructor (crypto: Crypto, ids: (nat, nat))
      ensures Valid() && View() == START && this.crypto == crypto && this.ids == ids
      ensures fresh(ends.0) && fresh(ends.1)
    {
      var first := new Endpoint(crypto, ids.0, ids.1);
      var second := new Endpoint(crypto, ids.1, ids.0);
      this.crypto, this.ids, ends, sent := crypto, ids, (first, second), [{}, {}];
    }

    /** What an endpoint does is a step of the two-peer world, so every theorem about runs holds of the objects. */
    method Perform(i: nat, a: Action)
      requires Valid() && i < 2 && (a.Deliver? ==> a.m in sent[1 - i])
      modifies this, ends.0, ends.1
      ensures Valid() && View() == Step(crypto, ids, old(View()), i, a)
    {
      StepKeepsFit(crypto, ids, View(), i, a);
      var end := if i == 0 then ends.0 else ends.1;
      match a
      case Request(newKey, now, forceRoot) =>
        var m := end.BuildRequest(newKey, now, forceRoot);
        if m.Some? {
          sent := sent[i := sent[i] + {m.value}];
        }
      case Deliver(m, newKey, now) =>
        if m.CreateChannel? {
          var _ := end.ProcessCreateChannel(m, newKey, now);
        } else {
          var _ := end.ProcessConfirmChannel(m);
        }
      case ChannelPacket => end.ProcessChannelPacket();
      case PeerReinit => end.ForgetPeer();
      case LocalReinit => end.Reinit();
    }
  }
}
