/** Contacts of the DHT: `KBucketEntry` and its age tests
    (libktorrent/kademlia/kbucket.h, kbucket.cpp:35-105). */
module Contacts {
  import opened Keys

  datatype Address = Address(ip: nat, port: nat)

  /** What `KBucketEntry::operator ==` compares. */
  datatype Contact = Contact(addr: Address, id: Key)

  const QUESTIONABLE_AFTER: nat := 15 * 60 * 1000

  /** `bt::TimeStamp` is a Uint64, so the age of a future time stamp wraps around. */
  const TIME_RANGE: nat := 0x1_0000_0000_0000_0000

  function Elapsed(since: nat, now: nat): int {
    if now >= since then now - since else now + TIME_RANGE - since
  }

  datatype Entry = Entry(node: Contact, lastResponded: nat, failedQueries: nat, questionablePings: nat) {
    function Age(now: nat): int { Elapsed(lastResponded, now) }

    predicate IsGood(now: nat) {
      Age(now) <= QUESTIONABLE_AFTER
    }

    predicate IsQuestionable(now: nat) {
      Age(now) > QUESTIONABLE_AFTER
    }

    predicate IsBad(now: nat) {
      !IsGood(now) && (failedQueries > 2 || questionablePings > 2)
    }
  }

  function NewEntry(node: Contact, now: nat): Entry {
    Entry(node, now, 0, 0)
  }
}
