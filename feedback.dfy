/**
 * The feedback widget's state: the list of saved entries, newest first, and
 * the text being typed, capped at 500 characters. The entry id and timestamp
 * (`crypto.randomUUID()` and `Date.now()`) and the entries read back from
 * local storage are parameters.
 */
module Feedback {
  import opened JsText

  const MAX_CHARS: nat := 500

  datatype Entry = Entry(id: string, text: string, timestamp: int)

  /** `entries.filter((e) => e.id !== id)`. */
  function WithoutEntry(entries: seq<Entry>, id: string): (r: seq<Entry>)
    ensures |r| <= |entries|
    ensures forall e :: e in r <==> e in entries && e.id != id
  {
    if entries == [] then []
    else (if entries[0].id != id then [entries[0]] else []) + WithoutEntry(entries[1..], id)
  }

  /** The filter keeps the survivors in their order: it distributes over concatenation. */
  lemma {:induction false} WithoutEntryAppend(a: seq<Entry>, b: seq<Entry>, id: string)
    ensures WithoutEntry(a + b, id) == WithoutEntry(a, id) + WithoutEntry(b, id)
  {
    if a == [] {
      assert a + b == b;
    } else {
      assert (a + b)[1..] == a[1..] + b;
      WithoutEntryAppend(a[1..], b, id);
    }
  }

  /** Entries with other ids are all kept, so removing an absent id changes nothing. */
  lemma {:induction false} WithoutAbsentEntry(entries: seq<Entry>, id: string)
    requires forall e :: e in entries ==> e.id != id
    ensures WithoutEntry(entries, id) == entries
  {
    if entries != [] {
      WithoutAbsentEntry(entries[1..], id);
      assert entries == [entries[0]] + entries[1..];
    }
  }

  /** `value.slice(0, MAX_CHARS)`. */
  function Capped(value: string): (r: string)
    ensures |r| <= MAX_CHARS
    ensures r <= value
    ensures |value| <= MAX_CHARS ==> r == value
  {
    if |value| <= MAX_CHARS then value else value[..MAX_CHARS]
  }

  class FeedbackWidget {
    var entries: seq<Entry>
    var input: string

    ghost predicate Valid()
      reads this
    {
      |input| <= MAX_CHARS
    }

    /** The widget opens with the stored entries and an empty input. */
    constructor (stored: seq<Entry>)
      ensures Valid()
      ensures entries == stored && input == ""
    {
      entries := stored;
      input := "";
    }

    /** The text field's `onChange`: the typed value, cut to 500 characters. */
    method SetInput(value: string)
      modifies this
      ensures Valid()
      ensures input == Capped(value) && entries == old(entries)
    {
      input := Capped(value);
    }

    /**
     * `addEntry`: a blank input changes nothing; otherwise the trimmed text
     * becomes a new first entry, the older entries follow unchanged and the
     * input is cleared.
     */
    method AddEntry(uuid: string, now: int)
      requires Valid()
      modifies this
      ensures Valid()
      ensures Trim(old(input)) == [] ==> entries == old(entries) && input == old(input)
      ensures Trim(old(input)) != [] ==> entries == [Entry(uuid, Trim(old(input)), now)] + old(entries) && input == ""
      ensures Trim(old(input)) != [] ==> 0 < |entries[0].text| <= MAX_CHARS
    {
      var text := Trim(input);
      if text == [] {
        return;
      }
      var entry := Entry(uuid, text, now);
      entries := [entry] + entries;
      input := "";
    }

    /** `handleKeyDown`: Enter without Shift adds the entry; any other key does nothing here. */
    method HandleKeyDown(key: string, shiftKey: bool, uuid: string, now: int)
      requires Valid()
      modifies this
      ensures Valid()
      ensures !(key == "Enter" && !shiftKey) ==> entries == old(entries) && input == old(input)
      ensures key == "Enter" && !shiftKey && Trim(old(input)) == [] ==> entries == old(entries) && input == old(input)
      ensures key == "Enter" && !shiftKey && Trim(old(input)) != [] ==> entries == [Entry(uuid, Trim(old(input)), now)] + old(entries) && input == ""
    {
      if key == "Enter" && !shiftKey {
        AddEntry(uuid, now);
      }
    }

    /** `removeEntry(id)`: drops the entries with that id and keeps the rest in order. */
    method RemoveEntry(id: string)
      requires Valid()
      modifies this
      ensures Valid()
      ensures entries == WithoutEntry(old(entries), id) && input == old(input)
    {
      entries := WithoutEntry(entries, id);
    }

    /** `clearAll`: no entries are left. */
    method ClearAll()
      requires Valid()
      modifies this
      ensures Valid()
      ensures entries == [] && input == old(input)
    {
      entries := [];
    }
  }
}
