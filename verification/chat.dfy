/** The chat endpoint's bookkeeping: which user is connected on which
    socket, and where each incoming message goes. */
module Chat {
  import opened Text
  import opened Entities

  /** One message as received: the receiver's id, the advertisement it is
      about, and its text. */
  datatype Incoming = Incoming(receiver: int, adId: int, message: string)

  /** What becomes of one message: an error reply to the sender, a delivery
      on the receiver's socket, or nothing. */
  datatype Delivery = ErrorReply(text: string) | Delivered(receiver: int, socket: int, text: string) | Dropped

  const SelfMessageError := "Error: You cannot send messages to yourself."

  /** The text a receiver sees. */
  function MessageText(sender: int, adId: int, message: string): string {
    "User " + IntToString(sender) + " (ad " + IntToString(adId) + "): " + message
  }

  predicate Owns(ads: map<int, Advertisement>, adId: int, u: int) {
    adId in ads && ads[adId].owner == u
  }

  /** The decision for one message from `sender`: refused when addressed to
      the sender; delivered when the receiver is connected and either the
      receiver or the sender owns the advertisement; dropped otherwise. */
  function Route(active: map<int, int>, ads: map<int, Advertisement>, sender: int, m: Incoming): (d: Delivery)
    ensures d.ErrorReply? <==> sender == m.receiver
    ensures d.ErrorReply? ==> d.text == SelfMessageError
    ensures d.Delivered? <==>
      sender != m.receiver && m.receiver in active && (Owns(ads, m.adId, m.receiver) || Owns(ads, m.adId, sender))
    ensures d.Delivered? ==>
      d.receiver == m.receiver && d.socket == active[m.receiver] && d.text == MessageText(sender, m.adId, m.message)
  {
    if sender == m.receiver then ErrorReply(SelfMessageError)
    else if Owns(ads, m.adId, m.receiver) && m.receiver in active then
      Delivered(m.receiver, active[m.receiver], MessageText(sender, m.adId, m.message))
    else if Owns(ads, m.adId, sender) && m.receiver in active then
      Delivered(m.receiver, active[m.receiver], MessageText(sender, m.adId, m.message))
    else Dropped
  }

  /** A message never reaches a user who neither owns the advertisement nor
      writes to its owner. */
  lemma DeliveryNeedsOwner(active: map<int, int>, ads: map<int, Advertisement>, sender: int, m: Incoming)
    requires !Owns(ads, m.adId, m.receiver) && !Owns(ads, m.adId, sender)
    ensures !Route(active, ads, sender, m).Delivered?
  {
  }

  /** A field that cannot contain `stop`, followed by `stop`, is read back
      unambiguously. */
  lemma {:induction false} SplitAtStop(a1: string, rest1: string, a2: string, rest2: string, stop: char)
    requires forall i :: 0 <= i < |a1| ==> a1[i] != stop
    requires forall i :: 0 <= i < |a2| ==> a2[i] != stop
    requires a1 + [stop] + rest1 == a2 + [stop] + rest2
    ensures a1 == a2 && rest1 == rest2
  {
    var t := a1 + [stop] + rest1;
    assert forall i :: 0 <= i < |a1| ==> t[i] == a1[i];
    assert forall i :: 0 <= i < |a2| ==> t[i] == a2[i];
    assert t[|a1|] == stop && t[|a2|] == stop;
    assert |a1| == |a2|;
    assert a1 == t[..|a1|] && a2 == t[..|a2|];
    assert rest1 == t[|a1| + 1..] && rest2 == t[|a2| + 1..];
  }

  /** The rendered sender id, then a space, then the rest. */
  lemma MessageTextShape(sender: int, adId: int, message: string)
    ensures |MessageText(sender, adId, message)| >= 5
    ensures MessageText(sender, adId, message)[5..] ==
      IntToString(sender) + [' '] + ("(ad " + IntToString(adId) + "): " + message)
  {
    var t := MessageText(sender, adId, message);
    assert t == "User " + (IntToString(sender) + [' '] + ("(ad " + IntToString(adId) + "): " + message));
  }

  /** The rendered advertisement id, then a closing parenthesis, then the
      rest. */
  lemma AdPartShape(adId: int, message: string)
    ensures ("(ad " + IntToString(adId) + "): " + message)[4..] == IntToString(adId) + [')'] + (": " + message)
  {
    var r := "(ad " + IntToString(adId) + "): " + message;
    assert r == "(ad " + (IntToString(adId) + [')'] + (": " + message));
  }

  /** The delivered text names its sender and advertisement unambiguously:
      two messages that read the same came from the same sender, about the
      same advertisement, with the same text. */
  lemma {:induction false} MessageTextIdentifiesSender(s1: int, a1: int, m1: string, s2: int, a2: int, m2: string)
    requires MessageText(s1, a1, m1) == MessageText(s2, a2, m2)
    ensures s1 == s2 && a1 == a2 && m1 == m2
  {
    var S1, S2 := IntToString(s1), IntToString(s2);
    var A1, A2 := IntToString(a1), IntToString(a2);
    var R1, R2 := "(ad " + A1 + "): " + m1, "(ad " + A2 + "): " + m2;
    MessageTextShape(s1, a1, m1);
    MessageTextShape(s2, a2, m2);
    SplitAtStop(S1, R1, S2, R2, ' ');
    AdPartShape(a1, m1);
    AdPartShape(a2, m2);
    SplitAtStop(A1, ": " + m1, A2, ": " + m2, ')');
    assert m1 == (": " + m1)[2..] && m2 == (": " + m2)[2..];
    IntToStringRoundTrip(s1);
    IntToStringRoundTrip(s2);
    IntToStringRoundTrip(a1);
    IntToStringRoundTrip(a2);
  }

  /** The open sockets, one per connected user id. */
  class ConnectionRegistry {
    var active: map<int, int>

    constructor ()
      ensures active == map[]
    {
      active := map[];
    }

    /** A connection registers the user's socket, replacing any earlier one. */
    method Connect(user: int, socket: int)
      modifies this
      ensures active == old(active)[user := socket]
    {
      active := active[user := socket];
    }

    /** A disconnect removes the user's entry, whichever socket it holds.
        `existed` is false when there was no entry, where the endpoint raises
        a key error. */
    method Disconnect(user: int) returns (existed: bool)
      modifies this
      ensures existed <==> user in old(active)
      ensures active == old(active) - {user}
    {
      existed := user in active;
      active := active - {user};
    }

    /** One socket's lifetime: the sender connects, each incoming message is
        routed in arrival order, and the sender disconnects. */
    method Session(sender: int, socket: int, inbox: seq<Incoming>, ads: map<int, Advertisement>)
      returns (out: seq<Delivery>)
      modifies this
      ensures |out| == |inbox|
      ensures forall i :: 0 <= i < |inbox| ==> out[i] == Route(old(active)[sender := socket], ads, sender, inbox[i])
      ensures active == old(active)[sender := socket] - {sender}
    {
      Connect(sender, socket);
      out := [];
      var i := 0;
      while i < |inbox|
        invariant 0 <= i <= |inbox| && |out| == i
        invariant active == old(active)[sender := socket]
        invariant forall j :: 0 <= j < i ==> out[j] == Route(active, ads, sender, inbox[j])
      {
        out := out + [Route(active, ads, sender, inbox[i])];
        i := i + 1;
      }
      var _ := Disconnect(sender);
    }
  }

  /** While the sender's session is open, nobody else's socket is touched. */
  lemma SessionKeepsOthers(active: map<int, int>, sender: int, socket: int, u: int)
    requires u != sender
    ensures u in active ==> u in active[sender := socket] - {sender} && (active[sender := socket] - {sender})[u] == active[u]
    ensures u !in active ==> u !in active[sender := socket] - {sender}
  {
  }
}
