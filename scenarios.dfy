/** Clients of the handlers: what a caller can conclude from their contracts
    alone about the service's documented usage scenarios. */
module Scenarios {
  import opened FaceStore
  import opened Recognition
  import opened ChatContext
  import opened FaceApp

  const Image := Some("QUxJQ0U=")

  /** Registering "alice" puts her registration in the listing; registering
      her again overwrites the row instead of adding one. */
  method RegisterTwice(alice: Encoding)
  {
    var server := new Server([]);
    var sees := (payload: string) => Detected([alice]);
    var r := server.Register(Some("alice"), Image, sees, "2025-01-01T09:00:00");
    assert r == Ok;
    assert Remove([], "alice") == [];
    assert server.rows == [Row("alice", alice, "2025-01-01T09:00:00")];
    var listing := server.ListDb();
    assert Registration("alice", "2025-01-01T09:00:00") in multiset(listing.data);

    var first := server.rows;
    r := server.Register(Some("alice"), Image, sees, "2025-01-02T09:00:00");
    assert Remove(first, "alice") == [];
    assert |server.rows| == 1;
    assert Lookup(server.rows, "alice") == Some(Row("alice", alice, "2025-01-02T09:00:00"));
  }

  /** A stored face is recognised by name, a stranger's as "Unknown". */
  method RecognizeKnownAndStranger(alice: Encoding, stranger: Encoding)
    requires alice != stranger
  {
    var server := new Server([Row("alice", alice, "2025-01-01T09:00:00")]);
    var same := (known: Encoding, probe: Encoding) => known == probe;
    var r := server.Recognize(Image, (payload: string) => Detected([alice]), same);
    assert FirstMatch(server.rows, alice, same, 0);
    assert r == OkNames(["alice"]);
    r := server.Recognize(Image, (payload: string) => Detected([stranger]), same);
    assert r == OkNames([Unknown]);
  }

  /** An image without a face, or a delete of an absent name (twice), leaves
      the table as it was. */
  method NothingChanges(alice: Encoding)
  {
    var row := Row("alice", alice, "2025-01-01T09:00:00");
    var server := new Server([row]);
    var r := server.Register(Some("bob"), Image, (payload: string) => Detected([]), "2025-01-03T09:00:00");
    assert r == Err("No face detected") && server.rows == [row];
    r := server.DeleteName(Some("bob"));
    r := server.DeleteName(Some("bob"));
    assert server.rows == [row];
  }

  /** After clearing, chat finds no context but still builds its prompt. */
  method ClearThenChat(alice: Encoding)
  {
    var server := new Server([Row("alice", alice, "2025-01-01T09:00:00")]);
    var r := server.ClearDb();
    var reply := server.Chat(Some("Who registered today?"), (q: string, k: nat) => [0, -1, -1, -1, -1]);
    assert reply.Ask? && reply.context == [];
  }

  /** Python treats an empty string as false, so an empty name, image or
      message is refused exactly like a missing one. */
  method EmptyFieldsRefused(alice: Encoding)
  {
    var row := Row("alice", alice, "2025-01-01T09:00:00");
    var server := new Server([row]);
    var sees := (payload: string) => Detected([alice]);
    var r := server.Register(Some(""), Image, sees, "2025-01-03T09:00:00");
    assert r == Err("Missing name or image") && server.rows == [row];
    r := server.Register(Some("bob"), Some(""), sees, "2025-01-03T09:00:00");
    assert r == Err("Missing name or image");
    r := server.Recognize(Some(""), sees, (known: Encoding, probe: Encoding) => true);
    assert r == Err("Missing image");
    r := server.DeleteName(Some(""));
    assert r == Err("Name required") && server.rows == [row];
    var reply := server.Chat(Some(""), (q: string, k: nat) => []);
    assert reply == Warning(EmptyMessageWarning);
  }
}
