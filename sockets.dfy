/** What a connection manager does to the outside world, recorded in order:
    a message row stored, or a text sent down one socket. Sockets are opaque
    identities; the list of open sockets is a sequence, as the source's
    Python list is. */
module Sockets {
  import opened Wrappers
  import opened ChatModel

  type SocketId = int

  datatype Effect =
    | Stored(message: Message)
    | Sent(socket: SocketId, text: string)

  /** The effect of storing m, if a message was stored. */
  function StoredPart(stored: Option<Message>): seq<Effect> {
    if stored.Some? then [Stored(stored.value)] else []
  }

  /** One `send_text(text)` per socket, in list order. */
  function SendAll(conns: seq<SocketId>, text: string): seq<Effect> {
    if conns == [] then [] else [Sent(conns[0], text)] + SendAll(conns[1..], text)
  }

  /** The sockets that the sends in es went to, in order. */
  function Receivers(es: seq<Effect>): seq<SocketId> {
    if es == [] then []
    else (if es[0].Sent? then [es[0].socket] else []) + Receivers(es[1..])
  }

  /** A broadcast reaches exactly the listed sockets, in list order, each
      as often as it is listed, and every one of them gets the same text. */
  lemma {:induction false} SendAllReachesList(conns: seq<SocketId>, text: string)
    ensures Receivers(SendAll(conns, text)) == conns
    ensures |SendAll(conns, text)| == |conns|
    ensures forall e :: e in SendAll(conns, text) ==> e.Sent? && e.text == text
  {
    if conns != [] {
      SendAllReachesList(conns[1..], text);
      var r := SendAll(conns, text);
      assert r[1..] == SendAll(conns[1..], text);
      assert conns == [conns[0]] + conns[1..];
    }
  }

  lemma {:induction false} SendAllAppend(a: seq<SocketId>, b: seq<SocketId>, text: string)
    ensures SendAll(a + b, text) == SendAll(a, text) + SendAll(b, text)
  {
    if a == [] {
      assert a + b == b;
    } else {
      assert (a + b)[0] == a[0];
      assert (a + b)[1..] == a[1..] + b;
      SendAllAppend(a[1..], b, text);
    }
  }

  lemma {:induction false} ReceiversAppend(a: seq<Effect>, b: seq<Effect>)
    ensures Receivers(a + b) == Receivers(a) + Receivers(b)
  {
    if a != [] {
      var h := if a[0].Sent? then [a[0].socket] else [];
      assert (a + b)[0] == a[0];
      assert (a + b)[1..] == a[1..] + b;
      assert Receivers(a + b) == h + Receivers(a[1..] + b);
      ReceiversAppend(a[1..], b);
      assert Receivers(a) == h + Receivers(a[1..]);
    } else {
      assert a + b == b;
    }
  }

  /** `list.remove(x)`: drops one occurrence of x, the first. */
  function RemoveFirst(s: seq<SocketId>, x: SocketId): (r: seq<SocketId>)
    ensures x !in s ==> r == s
    ensures multiset(r) == multiset(s) - multiset{x}
  {
    if s == [] then []
    else if s[0] == x then
      assert s == [x] + s[1..];
      s[1..]
    else
      assert s == [s[0]] + s[1..];
      [s[0]] + RemoveFirst(s[1..], x)
  }

  /** The entry removed is the first occurrence of x, and the others keep
      their order. */
  lemma {:induction false} RemoveFirstAt(s: seq<SocketId>, x: SocketId, i: nat)
    requires i < |s| && s[i] == x && x !in s[..i]
    ensures RemoveFirst(s, x) == s[..i] + s[i + 1..]
  {
    if i == 0 {
      assert s[..0] + s[1..] == s[1..];
    } else {
      var t := s[1..];
      assert s[0] != x by { assert s[0] in s[..i]; }
      assert t[..i - 1] == s[1..i];
      RemoveFirstAt(t, x, i - 1);
      assert t[i..] == s[i + 1..];
      assert RemoveFirst(s, x) == [s[0]] + RemoveFirst(t, x);
      GapAfterHead(s, i);
    }
  }

  lemma GapAfterHead(s: seq<SocketId>, i: nat)
    requires 0 < i < |s|
    ensures [s[0]] + (s[1..i] + s[i + 1..]) == s[..i] + s[i + 1..]
  {
    assert s[..i] == [s[0]] + s[1..i];
  }

  /** A socket that was not yet listed is gone again after connect followed
      by disconnect, and the list is as it was. */
  lemma {:induction false} ConnectThenDisconnect(conns: seq<SocketId>, ws: SocketId)
    requires ws !in conns
    ensures RemoveFirst(conns + [ws], ws) == conns
  {
    if conns != [] {
      assert (conns + [ws])[1..] == conns[1..] + [ws];
      ConnectThenDisconnect(conns[1..], ws);
      assert conns == [conns[0]] + conns[1..];
    }
  }
}
