/** A space of the store as a cache sees it: keys that expire, and writes that are conditional (cache_statements.go). */
module Caches {
  import opened Words
  import opened Values
  import opened Texts

  datatype Entry = Entry(value: Value, expires: Option<nat>)

  /** The clock counts nanoseconds. */
  datatype Store = Store(now: nat, entries: map<Str, Entry>)

  predicate Holds(s: Store, key: Str) {
    key in s.entries && (s.entries[key].expires.Some? ==> s.now < s.entries[key].expires.value)
  }

  /** What a GET answers: NONE for a key that is not there. */
  function ValueAt(s: Store, key: Str): Value {
    if Holds(s, key) then s.entries[key].value else None
  }

  /** When a write lands. */
  datatype Condition = Always | Absent | Present | Equals(expected: Value)

  /** A write, and how long it lasts if not forever. */
  datatype Write = Write(key: Str, value: Value, condition: Condition, ttl: Option<nat>)

  function IfAbsent(key: Str, value: Value, ttl: nat): Write {
    Write(key, value, Absent, Some(ttl))
  }

  function IfEquals(key: Str, expected: Value, value: Value, ttl: nat): Write {
    Write(key, value, Equals(expected), Some(ttl))
  }

  predicate Lands(s: Store, w: Write) {
    match w.condition
    case Always => true
    case Absent => !Holds(s, w.key)
    case Present => Holds(s, w.key)
    case Equals(expected) => Holds(s, w.key) && s.entries[w.key].value == expected
  }

  /** One statement, which the store runs as one step; it says whether it wrote. */
  function Apply(s: Store, w: Write): (Store, bool) {
    if !Lands(s, w) then (s, false)
    else
      var expires := if w.ttl.Some? then Some(s.now + w.ttl.value) else Nothing;
      (s.(entries := s.entries[w.key := Entry(w.value, expires)]), true)
  }

  /** What befalls one statement: nothing, or its loss before or after the store ran it. */
  datatype Fault = Fine | LostBefore | LostAfter

  const FREE: Value := Text(Ascii("free"))
  const RELEASE_NANOS := 1_000_000

  // ---------- durations ----------

  function NanosOf(d: Value): Option<nat> {
    if d.Duration? && d.seconds >= 0 then Some(d.seconds * NANOS_PER_SECOND + d.nanos) else Nothing
  }

  /** cacheDuration: the store's duration of a positive ttl, and nothing for any other. */
  function Lasting(ttl: Int64): (d: Option<Value>)
    ensures d.Some? <==> ttl > 0
    ensures d.Some? ==>
              && d.value.Duration? && 0 <= d.value.nanos < 1_000_000_000
              && d.value.seconds * 1_000_000_000 + d.value.nanos == ttl && NanosOf(d.value) == Some(ttl)
  {
    if ttl <= 0 then Nothing else Some(Duration(ttl / NANOS_PER_SECOND, ttl % NANOS_PER_SECOND))
  }
}
