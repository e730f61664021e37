/**
  A client of the server that reasons only from the contracts: two users
  connect, exchange a message, one leaves, and an expired token is refused.
 */
module Scenario {
  import opened Wrappers
  import opened Gate
  import opened Chat

  /** The verifier of this scenario: two known tokens, one expired token. */
  function Verifier(jwt: string): Verdict
  {
    if jwt == "a" then Decoded(Payload("alice", Some(2000)))
    else if jwt == "b" then Decoded(Payload("bob", Some(2000)))
    else if jwt == "old" then Threw(TokenExpiredErrorName)
    else Threw("JsonWebTokenError")
  }

  /** The message store of this scenario keeps the text as the message. */
  function Store(sender: Socket, receiverUsername: string, text: string): Option<string>
  {
    Some(text)
  }

  /** `"Bearer " + word` is presented and carries `word` as its credential. */
  lemma BearerWord(word: string)
    requires ' ' !in word
    ensures Presented(Some(Scheme + word)) && Credential(Scheme + word) == word
  {
    CredentialOfWord(word, "");
    assert Scheme + word + "" == Scheme + word;
  }

  /** What the gate decides for the scenario's three tokens. */
  lemma Decisions(now: int)
    requires now < 2000 * 1000
    ensures Authenticate(Some("Bearer a"), now, Verifier) == Admitted(Payload("alice", Some(2000)))
    ensures Authenticate(Some("Bearer b"), now, Verifier) == Admitted(Payload("bob", Some(2000)))
    ensures Authenticate(Some("Bearer old"), now, Verifier) == Rejected(TokenExpired)
  {
    BearerWord("a");
    assert Scheme + "a" == "Bearer a";
    BearerWord("b");
    assert Scheme + "b" == "Bearer b";
    BearerWord("old");
    assert Scheme + "old" == "Bearer old";
  }

  /** The second of two sockets leaves; the first stays. */
  lemma SecondLeaves(first: Socket, second: Socket)
    requires first.id != second.id
    ensures Without([first, second], second.id) == [first]
  {
    assert [first, second][1..] == [second];
    assert [second][1..] == [];
  }

  /** alice and bob, admitted as `Decisions` shows, are both online: a
      message from alice to bob reaches bob and is echoed to alice. */
  method BothOnline()
  {
    var server := new Server<string>();
    var a := server.Connect(Some(Payload("alice", Some(2000))));
    var alice := Socket(a, Some(Payload("alice", Some(2000))));
    var b := server.Connect(Some(Payload("bob", Some(2000))));
    var bob := Socket(b, Some(Payload("bob", Some(2000))));
    assert server.sockets == [alice, bob];
    assert server.sockets[0] == alice;

    assert FirstMatch([alice, bob], "bob") == Some(1);
    server.Post(alice, "bob", "hi", Store);
    assert server.outbox == [Emit(bob.id, MsgGet, Delivery(["hi"])), Emit(alice.id, MsgGet, Delivery(["hi"]))];
  }

  /** After bob leaves, alice's message to him is only echoed back to her. */
  method ReceiverLeft()
  {
    var server := new Server<string>();
    var a := server.Connect(Some(Payload("alice", Some(2000))));
    var alice := Socket(a, Some(Payload("alice", Some(2000))));
    var b := server.Connect(Some(Payload("bob", Some(2000))));
    var bob := Socket(b, Some(Payload("bob", Some(2000))));
    assert server.sockets == [alice, bob];

    SecondLeaves(alice, bob);
    server.Disconnect(bob.id);
    assert server.sockets[0] == alice;
    assert FirstMatch([alice], "bob") == None;
    server.Post(alice, "bob", "bye", Store);
    assert server.outbox == [Emit(alice.id, MsgGet, Delivery(["bye"]))];
  }

  /** A token the verifier reports expired never reaches the namespace. */
  method ExpiredRefused()
  {
    var server := new Server<string>();
    Decisions(1000);
    var first, a := server.Handshake(Some("Bearer a"), 1000, Verifier);
    var refused, none := server.Handshake(Some("Bearer old"), 1000, Verifier);
    assert refused == Rejected(TokenExpired) && none.None?;
    assert server.sockets == [Socket(a.value, Some(Payload("alice", Some(2000))))];
  }

}
