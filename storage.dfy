/**
 * The device-local key-value store shared by the screens (AsyncStorage),
 * modelled as a synchronous map from key names to stored values.
 */
module Storage {
  import opened Wrappers
  import opened Calendar

  /** One registered account, as appended to the `users` list by the registration screen. */
  datatype UserRecord = UserRecord(name: string, email: string, password: string, gender: string, birthDate: Date)

  /**
   * A stored value. The store itself only holds text; the model keeps the two
   * serialised payloads structured instead of spelling out their text:
   * `Timestamp` is the ISO timestamp written for a birth date and `UserList`
   * is the JSON array written under `users`.
   */
  datatype Value = Text(text: string) | Timestamp(date: Date) | UserList(users: seq<UserRecord>)

  const UsernameKey: string := "username"
  const EmailKey: string := "email"
  const GenderKey: string := "gender"
  const BirthDateKey: string := "birthDate"
  const AvatarKey: string := "avatar"
  const UsersKey: string := "users"

  /** What `getItem(key)` yields: the stored value, or nothing for a missing key. */
  function Lookup(entries: map<string, Value>, key: string): (v: Option<Value>)
    ensures v.Some? <==> key in entries
    ensures v.Some? ==> v.value == entries[key]
  {
    if key in entries then Some(entries[key]) else None
  }

  class Store {
    var entries: map<string, Value>

    constructor (initial: map<string, Value>)
      ensures entries == initial
    {
      entries := initial;
    }

    method GetItem(key: string) returns (v: Option<Value>)
      ensures v == Lookup(entries, key)
    {
      if key in entries {
        v := Some(entries[key]);
      } else {
        v := None;
      }
    }

    method SetItem(key: string, v: Value)
      modifies this
      ensures entries == old(entries)[key := v]
    {
      entries := entries[key := v];
    }
  }

}
