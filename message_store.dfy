/** The persisted message log, reduced to what the game coordinator uses: a lookup
    by id and an update in place that may fail. The storage engine itself is not
    part of this model. */
module Store {
  import opened Messages

  class MessageStore {
    var messages: map<int, Message>

    /** Every record is stored under its own id. */
    ghost predicate Valid()
      reads this
    {
      forall id :: id in messages ==> messages[id].id == id
    }

    constructor (messages: map<int, Message>)
      requires forall id :: id in messages ==> messages[id].id == id
      ensures this.messages == messages
      ensures Valid()
    {
      this.messages := messages;
    }

    /** The lookup; MessageRepository.get's query fails with an exception when no row matches,
        which callers check for before calling. */
    function Get(id: int): (m: Message)
      reads this
      requires id in messages
      ensures Valid() ==> m.id == id
    {
      messages[id]
    }

    /** Overwrites the record with the same id. It fails when there is no such record,
        and may fail for reasons outside this model (a database error); a failed
        update changes nothing. */
    method Update(m: Message) returns (ok: bool)
      requires Valid()
      modifies this
      ensures Valid()
      ensures ok ==> m.id in old(messages) && messages == old(messages)[m.id := m]
      ensures !ok ==> messages == old(messages)
    {
      if m.id !in messages {
        return false;
      }
      ok :| true;
      if ok {
        messages := messages[m.id := m];
      }
    }
  }
}
