/**
 * The profile editor screen: five component-state fields loaded from the store
 * with defaults, saved back key by key behind a non-emptiness guard, and an
 * avatar replaced by a picked image.
 *
 * "Now" (the default birth date) and the image picker's answer are explicit
 * inputs.
 */
module EditProfile {
  import opened Wrappers
  import opened Calendar
  import opened Storage

  /** The editor's component state. */
  datatype Profile = Profile(name: string, email: string, gender: string, birthDate: Date, avatar: Option<string>)

  // ---------------------------------------------------------------------
  // loadUserData
  // ---------------------------------------------------------------------

  /** `stored || fallback` for a text entry: a missing or empty entry gives the fallback. */
  function TextOr(entry: Option<Value>, fallback: string): string
  {
    match entry
    case Some(Text(s)) => if s != "" then s else fallback
    case _ => fallback
  }

  /** `stored ? new Date(stored) : new Date()`: a stored timestamp, otherwise now. */
  function StoredDateOr(entry: Option<Value>, now: Date): Date
  {
    match entry
    case Some(Timestamp(d)) => d
    case _ => now
  }

  /** `stored || null` for the avatar locator. */
  function StoredAvatar(entry: Option<Value>): Option<string>
  {
    match entry
    case Some(Text(s)) => if s != "" then Some(s) else None
    case _ => None
  }

  /** The state `loadUserData` leaves: each of the five keys read independently, with its default. */
  function LoadedProfile(entries: map<string, Value>, now: Date): Profile
  {
    Profile(
      TextOr(Lookup(entries, UsernameKey), ""),
      TextOr(Lookup(entries, EmailKey), ""),
      TextOr(Lookup(entries, GenderKey), ""),
      StoredDateOr(Lookup(entries, BirthDateKey), now),
      StoredAvatar(Lookup(entries, AvatarKey)))
  }

  /** Missing keys load as the empty string, now, and no avatar. */
  lemma LoadDefaults(entries: map<string, Value>, now: Date)
    ensures var p := LoadedProfile(entries, now);
      && (UsernameKey !in entries ==> p.name == "")
      && (EmailKey !in entries ==> p.email == "")
      && (GenderKey !in entries ==> p.gender == "")
      && (BirthDateKey !in entries ==> p.birthDate == now)
      && (AvatarKey !in entries ==> p.avatar == None)
  {
  }

  /** Loading reads only the five profile keys: entries under any other key make no difference. */
  lemma LoadReadsOnlyProfileKeys(entries: map<string, Value>, other: map<string, Value>, now: Date)
    requires forall key :: key in ProfileKeys ==> Lookup(entries, key) == Lookup(other, key)
    ensures LoadedProfile(entries, now) == LoadedProfile(other, now)
  {
    assert UsernameKey in ProfileKeys && EmailKey in ProfileKeys && GenderKey in ProfileKeys;
    assert BirthDateKey in ProfileKeys && AvatarKey in ProfileKeys;
  }

  // ---------------------------------------------------------------------
  // handleSave
  // ---------------------------------------------------------------------

  const ProfileKeys: set<string> := {UsernameKey, EmailKey, GenderKey, BirthDateKey, AvatarKey}

  /** The only guard on saving: a non-empty name and a non-empty email. */
  predicate CanSave(p: Profile)
  {
    p.name != "" && p.email != ""
  }

  /** `if (avatar)`: the avatar is written only when it is a non-empty locator. */
  predicate HasAvatar(p: Profile)
  {
    p.avatar.Some? && p.avatar.value != ""
  }

  /** The entries after a save that passed the guard: four keys always, `avatar` when present. */
  function SavedEntries(entries: map<string, Value>, p: Profile): map<string, Value>
  {
    var written := entries[UsernameKey := Text(p.name)][EmailKey := Text(p.email)]
                          [GenderKey := Text(p.gender)][BirthDateKey := Timestamp(p.birthDate)];
    if HasAvatar(p) then written[AvatarKey := Text(p.avatar.value)] else written
  }

  /**
   * Save then load gives back the saved name, email, gender and birth date;
   * the avatar is the saved one when there was one, and otherwise whatever was
   * stored before.
   */
  lemma SaveThenLoad(entries: map<string, Value>, p: Profile, now: Date)
    requires CanSave(p)
    ensures LoadedProfile(SavedEntries(entries, p), now)
         == p.(avatar := if HasAvatar(p) then p.avatar else LoadedProfile(entries, now).avatar)
  {
    var m := SavedEntries(entries, p);
    assert Lookup(m, UsernameKey) == Some(Text(p.name));
    assert Lookup(m, EmailKey) == Some(Text(p.email));
    assert Lookup(m, GenderKey) == Some(Text(p.gender));
    assert Lookup(m, BirthDateKey) == Some(Timestamp(p.birthDate));
    if !HasAvatar(p) {
      assert Lookup(m, AvatarKey) == Lookup(entries, AvatarKey);
    }
  }

  /**
   * A save writes only the profile keys: every other key (the `users` list
   * among them) keeps its entry, and without an avatar so does `avatar`.
   */
  lemma SaveTouchesOnlyProfileKeys(entries: map<string, Value>, p: Profile, key: string)
    ensures key !in ProfileKeys ==> Lookup(SavedEntries(entries, p), key) == Lookup(entries, key)
    ensures key == AvatarKey && !HasAvatar(p) ==> Lookup(SavedEntries(entries, p), key) == Lookup(entries, key)
    ensures key == AvatarKey && HasAvatar(p) ==> Lookup(SavedEntries(entries, p), key) == Some(Text(p.avatar.value))
    ensures SavedEntries(entries, p).Keys == entries.Keys + {UsernameKey, EmailKey, GenderKey, BirthDateKey}
                                             + (if HasAvatar(p) then {AvatarKey} else {})
  {
  }

  /** The registered-users list survives any profile save. */
  lemma SaveKeepsUsers(entries: map<string, Value>, p: Profile)
    ensures Lookup(SavedEntries(entries, p), UsersKey) == Lookup(entries, UsersKey)
  {
    SaveTouchesOnlyProfileKeys(entries, p, UsersKey);
  }

  /** The guard looks at nothing but the emptiness of name and email: no address format, any gender. */
  lemma SaveGuardIsLoose(p: Profile, email: string, gender: string, birthDate: Date, avatar: Option<string>)
    requires email != ""
    ensures CanSave(p.(email := email, gender := gender, birthDate := birthDate, avatar := avatar)) <==> p.name != ""
  {
  }

  // ---------------------------------------------------------------------
  // pickImage
  // ---------------------------------------------------------------------

  datatype Asset = Asset(uri: string)

  /** What the image library returns: cancelled or not, and a possibly missing list of assets. */
  datatype PickResult = PickResult(canceled: bool, assets: Option<seq<Asset>>)

  /**
   * The avatar after `pickImage`: the first asset's locator when permission was
   * granted and the pick was neither cancelled nor empty, otherwise unchanged.
   */
  function PickedAvatar(current: Option<string>, granted: bool, result: PickResult): Option<string>
  {
    if granted && !result.canceled && result.assets.Some? && |result.assets.value| > 0 then
      Some(result.assets.value[0].uri)
    else
      current
  }

  lemma PickOutcomes(current: Option<string>, granted: bool, result: PickResult)
    ensures !granted || result.canceled || result.assets == None || result.assets == Some([]) ==>
              PickedAvatar(current, granted, result) == current
    ensures granted && !result.canceled && result.assets.Some? && |result.assets.value| > 0 ==>
              PickedAvatar(current, granted, result) == Some(result.assets.value[0].uri)
  {
  }

  // ---------------------------------------------------------------------
  // The screen
  // ---------------------------------------------------------------------

  class EditProfileScreen {
    var name: string
    var email: string
    var gender: string
    var birthDate: Date
    var avatar: Option<string>

    function State(): Profile
      reads this
    {
      Profile(name, email, gender, birthDate, avatar)
    }

    /** The initial `useState` values. */
    constructor (now: Date)
      ensures State() == Profile("", "", "", now, None)
    {
      name, email, gender, birthDate, avatar := "", "", "", now, None;
    }

    /** `loadUserData`: five reads, then the five setters with their defaults. */
    method LoadUserData(store: Store, now: Date)
      modifies this
      ensures State() == LoadedProfile(store.entries, now)
    {
      var storedUsername := store.GetItem(UsernameKey);
      var storedEmail := store.GetItem(EmailKey);
      var storedGender := store.GetItem(GenderKey);
      var storedBirthDate := store.GetItem(BirthDateKey);
      var storedAvatar := store.GetItem(AvatarKey);
      name := TextOr(storedUsername, "");
      email := TextOr(storedEmail, "");
      gender := TextOr(storedGender, "");
      birthDate := StoredDateOr(storedBirthDate, now);
      avatar := StoredAvatar(storedAvatar);
    }

    /**
     * `handleSave`: refuses an empty name or email without touching the store;
     * otherwise writes the profile keys one by one.
     */
    method HandleSave(store: Store) returns (saved: bool)
      modifies store
      ensures saved <==> CanSave(State())
      ensures store.entries == if saved then SavedEntries(old(store.entries), State()) else old(store.entries)
    {
      if name == "" || email == "" {
        return false;
      }
      store.SetItem(UsernameKey, Text(name));
      store.SetItem(EmailKey, Text(email));
      store.SetItem(GenderKey, Text(gender));
      store.SetItem(BirthDateKey, Timestamp(birthDate));
      if avatar.Some? && avatar.value != "" {
        store.SetItem(AvatarKey, Text(avatar.value));
      }
      return true;
    }

    /** `pickImage`: only the avatar can change, and only on a granted, non-cancelled, non-empty pick. */
    method PickImage(granted: bool, result: PickResult)
      modifies this
      ensures State() == old(State()).(avatar := PickedAvatar(old(avatar), granted, result))
    {
      if !granted {
        return;
      }
      if !result.canceled && result.assets.Some? && |result.assets.value| > 0 {
        avatar := Some(result.assets.value[0].uri);
      }
    }
  }

}
