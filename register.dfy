/**
 * The registration screen: three field validators, the age computation, and
 * `handleRegister`, which runs the checks in a fixed order and, when all pass,
 * appends one record to the stored `users` list.
 *
 * "Today" and the stored list are explicit inputs instead of `new Date()` and
 * AsyncStorage reads.
 */
module Register {
  import opened Wrappers
  import opened Calendar
  import opened Storage

  // ---------------------------------------------------------------------
  // Email format: /^[a-zA-Z0-9._%+-]+@gmail\.com$/
  // ---------------------------------------------------------------------

  const GmailDomain: string := "@gmail.com"

  /** The character class `[a-zA-Z0-9._%+-]` of the local part. */
  predicate IsLocalChar(c: char)
  {
    || ('a' <= c <= 'z') || ('A' <= c <= 'Z') || ('0' <= c <= '9')
    || c == '.' || c == '_' || c == '%' || c == '+' || c == '-'
  }

  predicate AllLocal(s: string)
  {
    forall i :: 0 <= i < |s| ==> IsLocalChar(s[i])
  }

  /**
   * The regular expression, matched left to right: one class character, then
   * `MatchLocalTail`. Since `@` is not in the class, the matcher never needs
   * to backtrack.
   */
  predicate ValidateEmail(email: string)
  {
    |email| > 0 && IsLocalChar(email[0]) && MatchLocalTail(email[1..])
  }

  /** The rest of the pattern, `[a-zA-Z0-9._%+-]*@gmail\.com$`. */
  predicate MatchLocalTail(s: string)
    decreases |s|
  {
    s == GmailDomain || (|s| > 0 && IsLocalChar(s[0]) && MatchLocalTail(s[1..]))
  }

  /** The language of the pattern: a non-empty local part over the class, then exactly `@gmail.com`. */
  predicate IsGmailAddress(email: string)
  {
    && |email| > |GmailDomain|
    && email[|email| - |GmailDomain|..] == GmailDomain
    && AllLocal(email[..|email| - |GmailDomain|])
  }

  lemma AllLocalCons(c: char, s: string)
    ensures AllLocal([c] + s) <==> IsLocalChar(c) && AllLocal(s)
  {
    if AllLocal([c] + s) {
      assert ([c] + s)[0] == c;
      forall i | 0 <= i < |s| ensures IsLocalChar(s[i]) {
        assert s[i] == ([c] + s)[i + 1];
      }
    }
    if IsLocalChar(c) && AllLocal(s) {
      forall i | 0 <= i < |[c] + s| ensures IsLocalChar(([c] + s)[i]) {
        if i > 0 {
          assert ([c] + s)[i] == s[i - 1];
        }
      }
    }
  }

  lemma {:induction false} MatchLocalTailShape(s: string)
    ensures MatchLocalTail(s) <==>
              && |s| >= |GmailDomain|
              && s[|s| - |GmailDomain|..] == GmailDomain
              && AllLocal(s[..|s| - |GmailDomain|])
    decreases |s|
  {
    var d := |GmailDomain|;
    if s == GmailDomain {
      assert s[..|s| - d] == [];
    } else if |s| == 0 {
    } else {
      var t := s[1..];
      MatchLocalTailShape(t);
      if |s| > d {
        assert t[|t| - d..] == s[|s| - d..];
        assert s[..|s| - d] == [s[0]] + t[..|t| - d];
        AllLocalCons(s[0], t[..|t| - d]);
      } else if |s| == d {
        assert s[|s| - d..] == s;
      }
    }
  }

  /** The matcher accepts exactly the language of the pattern. */
  lemma ValidateEmailCorrect(email: string)
    ensures ValidateEmail(email) <==> IsGmailAddress(email)
  {
    var d := |GmailDomain|;
    if |email| > 0 {
      var t := email[1..];
      MatchLocalTailShape(t);
      if |email| > d {
        assert t[|t| - d..] == email[|email| - d..];
        assert email[..|email| - d] == [email[0]] + t[..|t| - d];
        AllLocalCons(email[0], t[..|t| - d]);
      }
    }
  }

  /** An address is accepted iff it is `local + "@gmail.com"` with a non-empty local part over the class. */
  lemma GmailAddressForm(local: string)
    ensures ValidateEmail(local + GmailDomain) <==> |local| > 0 && AllLocal(local)
  {
    var e := local + GmailDomain;
    ValidateEmailCorrect(e);
    assert e[|e| - |GmailDomain|..] == GmailDomain;
    assert e[..|e| - |GmailDomain|] == local;
  }

  /** Empty local part, another domain, a different-case domain, a second `@`: all rejected. */
  lemma EmailExamples()
    ensures ValidateEmail("a@gmail.com")
    ensures !ValidateEmail("@gmail.com")
    ensures !ValidateEmail("a@yahoo.com")
    ensures !ValidateEmail("a@Gmail.com")
    ensures !ValidateEmail("a@b@gmail.com")
  {
    GmailAddressForm("a");
    GmailAddressForm("");
    GmailAddressForm("a@b");
    assert !IsLocalChar('@');
    ValidateEmailCorrect("a@yahoo.com");
    assert "a@yahoo.com"[11 - 10..] != GmailDomain by {
      assert "a@yahoo.com"[11 - 10..][1] == 'y';
    }
    ValidateEmailCorrect("a@Gmail.com");
    assert "a@Gmail.com"[11 - 10..] != GmailDomain by {
      assert "a@Gmail.com"[11 - 10..][1] == 'G';
    }
  }

  // ---------------------------------------------------------------------
  // Password strength
  // ---------------------------------------------------------------------

  const MinPasswordLength: nat := 8

  predicate ValidatePassword(password: string)
  {
    |password| >= MinPasswordLength
  }

  /** Only the length counts, never which characters the password holds. */
  lemma PasswordLengthOnly(p: string, q: string)
    ensures ValidatePassword(p) <==> |p| >= 8
    ensures |p| == |q| ==> ValidatePassword(p) == ValidatePassword(q)
  {
  }

  // ---------------------------------------------------------------------
  // Age in whole years
  // ---------------------------------------------------------------------

  /** The day someone born on `dob` turns `years` old: the same month and day, `years` later. */
  function Anniversary(dob: Date, years: int): Date
  {
    Date(dob.year + years, dob.month, dob.day)
  }

  /**
   * `calculateAge`: the year difference, less one when this year's birthday
   * has not come yet. The result is the number of whole years elapsed: the
   * birthday of that age has been reached and the next one has not.
   */
  function CalculateAge(today: Date, dob: Date): (age: int)
    ensures NotAfter(Anniversary(dob, age), today)
    ensures Before(today, Anniversary(dob, age + 1))
  {
    var age := today.year - dob.year;
    var monthDiff := today.month - dob.month;
    if monthDiff < 0 || (monthDiff == 0 && today.day < dob.day) then age - 1 else age
  }

  lemma AnniversaryMonotone(dob: Date, j: int, k: int)
    requires j <= k
    ensures NotAfter(Anniversary(dob, j), Anniversary(dob, k))
  {
  }

  /** The two anniversary bounds determine the age: no other count of years satisfies them. */
  lemma AgeUnique(today: Date, dob: Date, k: int)
    requires NotAfter(Anniversary(dob, k), today)
    requires Before(today, Anniversary(dob, k + 1))
    ensures k == CalculateAge(today, dob)
  {
    var a := CalculateAge(today, dob);
    if k < a {
      AnniversaryMonotone(dob, k + 1, a);
      NotAfterIsTotalOrder(Anniversary(dob, k + 1), Anniversary(dob, a), today);
    } else if a < k {
      AnniversaryMonotone(dob, a + 1, k);
      NotAfterIsTotalOrder(Anniversary(dob, a + 1), Anniversary(dob, k), today);
    }
  }

  /** Someone is at least `n` years old exactly when their `n`-th birthday is not after today. */
  lemma ReachedAge(today: Date, dob: Date, n: int)
    ensures CalculateAge(today, dob) >= n <==> NotAfter(Anniversary(dob, n), today)
  {
    var a := CalculateAge(today, dob);
    if a >= n {
      AnniversaryMonotone(dob, n, a);
      NotAfterIsTotalOrder(Anniversary(dob, n), Anniversary(dob, a), today);
    } else {
      AnniversaryMonotone(dob, a + 1, n);
      NotAfterIsTotalOrder(today, Anniversary(dob, a + 1), Anniversary(dob, n));
    }
  }

  /** A birth date that is not after today gives a non-negative age. */
  lemma AgeNonNegative(today: Date, dob: Date)
    requires NotAfter(dob, today)
    ensures CalculateAge(today, dob) >= 0
  {
    ReachedAge(today, dob, 0);
    assert Anniversary(dob, 0) == dob;
  }

  /** A later birth date never gives a larger age. */
  lemma AgeAntitone(today: Date, dob1: Date, dob2: Date)
    requires NotAfter(dob1, dob2)
    ensures CalculateAge(today, dob2) <= CalculateAge(today, dob1)
  {
    var a2 := CalculateAge(today, dob2);
    ReachedAge(today, dob1, a2);
    NotAfterIsTotalOrder(Anniversary(dob1, a2), Anniversary(dob2, a2), today);
  }

  /**
   * Born exactly 18 years before today: 18. Born any later day: under 18;
   * one day later in the same month: exactly 17.
   */
  lemma EighteenthBirthday(today: Date, dob: Date)
    ensures CalculateAge(today, Anniversary(today, -18)) == 18
    ensures Before(Anniversary(today, -18), dob) ==> CalculateAge(today, dob) < 18
    ensures CalculateAge(today, Date(today.year - 18, today.month, today.day + 1)) == 17
  {
    AgeUnique(today, Anniversary(today, -18), 18);
    if Before(Anniversary(today, -18), dob) {
      ReachedAge(today, dob, 18);
    }
  }

  // ---------------------------------------------------------------------
  // handleRegister
  // ---------------------------------------------------------------------

  /** The form's component state when the register button is pressed. */
  datatype RegistrationForm = RegistrationForm(
    name: string, email: string, password: string, confirmPassword: string,
    gender: string, birthDate: Date)

  /**
   * The alert each rejection raises. `StorageFailure` is the generic
   * "Something went wrong." raised when the stored list cannot be read.
   */
  datatype RegisterError =
    | MissingField | BadEmailFormat | WeakPassword | PasswordMismatch | Underage
    | StorageFailure | DuplicateEmail

  datatype Outcome = Registered | Rejected(error: RegisterError)

  /** The outcome and the store's entries after one press of the register button. */
  datatype Registration = Registration(outcome: Outcome, entries: map<string, Value>)

  const MinimumAge: int := 18

  /** The record appended on success: every form field but the confirmation. */
  function NewUser(form: RegistrationForm): UserRecord
  {
    UserRecord(form.name, form.email, form.password, form.gender, form.birthDate)
  }

  /**
   * Stored texts that `JSON.parse` turns into a falsy value (`null`, `false`,
   * zero, the empty string), which `|| []` then replaces by the empty list.
   */
  const FalsyJsonTexts: set<string> := {"null", "false", "0", "-0", "\"\""}

  /**
   * `JSON.parse(await getItem('users')) || []`: a missing entry (`null`) and a
   * falsy JSON literal read as the empty list, a stored list is itself, and
   * anything else either fails to parse or has no `some` method, so the
   * handler ends in its `catch` branch.
   */
  function ExistingUsers(entry: Option<Value>): Option<seq<UserRecord>>
  {
    match entry
    case None => Some([])
    case Some(UserList(users)) => Some(users)
    case Some(Text(s)) => if s in FalsyJsonTexts then Some([]) else None
    case Some(_) => None
  }

  /** `users.some(user => user.email === email)`. */
  function SomeHasEmail(users: seq<UserRecord>, email: string): (found: bool)
    ensures found <==> exists k :: 0 <= k < |users| && users[k].email == email
  {
    if |users| == 0 then false
    else users[0].email == email || SomeHasEmail(users[1..], email)
  }

  /** The checks of `handleRegister`, in the order the source runs them; the first failure is reported. */
  function Decide(form: RegistrationForm, today: Date, usersEntry: Option<Value>): Outcome
  {
    if form.name == "" || form.email == "" || form.password == "" || form.confirmPassword == "" || form.gender == "" then
      Rejected(MissingField)
    else if !ValidateEmail(form.email) then
      Rejected(BadEmailFormat)
    else if !ValidatePassword(form.password) then
      Rejected(WeakPassword)
    else if form.password != form.confirmPassword then
      Rejected(PasswordMismatch)
    else if CalculateAge(today, form.birthDate) < MinimumAge then
      Rejected(Underage)
    else
      match ExistingUsers(usersEntry)
      case None => Rejected(StorageFailure)
      case Some(users) => if SomeHasEmail(users, form.email) then Rejected(DuplicateEmail) else Registered
  }

  /** The stored list a successful registration starts from (a missing entry is the empty list). */
  function UsersIn(entries: map<string, Value>): seq<UserRecord>
  {
    match ExistingUsers(Lookup(entries, UsersKey))
    case Some(users) => users
    case None => []
  }

  /**
   * One press of the register button: a rejection leaves every entry as it
   * was; an acceptance rewrites `users` with the new record appended.
   */
  function Register(entries: map<string, Value>, form: RegistrationForm, today: Date): (r: Registration)
    ensures r.outcome.Rejected? ==> r.entries == entries
    ensures r.outcome.Registered? ==> r.entries == entries[UsersKey := UserList(UsersIn(entries) + [NewUser(form)])]
  {
    var outcome := Decide(form, today, Lookup(entries, UsersKey));
    if outcome.Registered? then
      Registration(outcome, entries[UsersKey := UserList(UsersIn(entries) + [NewUser(form)])])
    else
      Registration(outcome, entries)
  }

  /** `handleRegister`: early-return checks, one read of `users`, one write of the extended list. */
  method HandleRegister(store: Store, form: RegistrationForm, today: Date) returns (outcome: Outcome)
    modifies store
    ensures Registration(outcome, store.entries) == Register(old(store.entries), form, today)
  {
    if form.name == "" || form.email == "" || form.password == "" || form.confirmPassword == "" || form.gender == "" {
      return Rejected(MissingField);
    }
    if !ValidateEmail(form.email) {
      return Rejected(BadEmailFormat);
    }
    if !ValidatePassword(form.password) {
      return Rejected(WeakPassword);
    }
    if form.password != form.confirmPassword {
      return Rejected(PasswordMismatch);
    }
    if CalculateAge(today, form.birthDate) < MinimumAge {
      return Rejected(Underage);
    }
    var stored := store.GetItem(UsersKey);
    var existing := ExistingUsers(stored);
    if existing.None? {
      return Rejected(StorageFailure);
    }
    if SomeHasEmail(existing.value, form.email) {
      return Rejected(DuplicateEmail);
    }
    var updated := existing.value + [NewUser(form)];
    store.SetItem(UsersKey, UserList(updated));
    return Registered;
  }

  // ---------------------------------------------------------------------
  // The check order, stated independently of Decide
  // ---------------------------------------------------------------------

  /** Position of each check in the chain. */
  function Rank(check: RegisterError): nat
  {
    match check
    case MissingField => 0
    case BadEmailFormat => 1
    case WeakPassword => 2
    case PasswordMismatch => 3
    case Underage => 4
    case StorageFailure => 5
    case DuplicateEmail => 6
  }

  /** What each check forbids, stated by the reference definitions rather than the validators. */
  predicate Violates(check: RegisterError, form: RegistrationForm, today: Date, usersEntry: Option<Value>)
  {
    match check
    case MissingField =>
      form.name == "" || form.email == "" || form.password == "" || form.confirmPassword == "" || form.gender == ""
    case BadEmailFormat => !IsGmailAddress(form.email)
    case WeakPassword => |form.password| < 8
    case PasswordMismatch => form.password != form.confirmPassword
    case Underage => Before(today, Anniversary(form.birthDate, 18))
    case StorageFailure =>
      && usersEntry.Some? && !usersEntry.value.UserList?
      && !(usersEntry.value.Text? && usersEntry.value.text in FalsyJsonTexts)
    case DuplicateEmail =>
      && usersEntry.Some? && usersEntry.value.UserList?
      && exists k :: 0 <= k < |usersEntry.value.users| && usersEntry.value.users[k].email == form.email
  }

  predicate PassesChecksBefore(rank: nat, form: RegistrationForm, today: Date, usersEntry: Option<Value>)
  {
    forall check :: Rank(check) < rank ==> !Violates(check, form, today, usersEntry)
  }

  /** `PassesChecksBefore` spelled out check by check. */
  lemma UnfoldPassesChecksBefore(rank: nat, form: RegistrationForm, today: Date, usersEntry: Option<Value>)
    ensures PassesChecksBefore(rank, form, today, usersEntry) <==>
              && (rank > 0 ==> !Violates(MissingField, form, today, usersEntry))
              && (rank > 1 ==> !Violates(BadEmailFormat, form, today, usersEntry))
              && (rank > 2 ==> !Violates(WeakPassword, form, today, usersEntry))
              && (rank > 3 ==> !Violates(PasswordMismatch, form, today, usersEntry))
              && (rank > 4 ==> !Violates(Underage, form, today, usersEntry))
              && (rank > 5 ==> !Violates(StorageFailure, form, today, usersEntry))
              && (rank > 6 ==> !Violates(DuplicateEmail, form, today, usersEntry))
  {
    assert Rank(MissingField) == 0 && Rank(BadEmailFormat) == 1 && Rank(WeakPassword) == 2;
    assert Rank(PasswordMismatch) == 3 && Rank(Underage) == 4 && Rank(StorageFailure) == 5;
    assert Rank(DuplicateEmail) == 6;
  }

  /** A check is reported exactly when it is violated and every earlier check passes. */
  lemma DecideReportsFirstViolation(form: RegistrationForm, today: Date, usersEntry: Option<Value>, check: RegisterError)
    ensures Decide(form, today, usersEntry) == Rejected(check) <==>
              Violates(check, form, today, usersEntry) && PassesChecksBefore(Rank(check), form, today, usersEntry)
  {
    ValidateEmailCorrect(form.email);
    ReachedAge(today, form.birthDate, 18);
    UnfoldPassesChecksBefore(Rank(check), form, today, usersEntry);
  }

  /** The form is accepted exactly when no check is violated. */
  lemma DecideAcceptsIffNoViolation(form: RegistrationForm, today: Date, usersEntry: Option<Value>)
    ensures Decide(form, today, usersEntry) == Registered <==> PassesChecksBefore(7, form, today, usersEntry)
  {
    ValidateEmailCorrect(form.email);
    ReachedAge(today, form.birthDate, 18);
    UnfoldPassesChecksBefore(7, form, today, usersEntry);
  }

  // ---------------------------------------------------------------------
  // The stored list
  // ---------------------------------------------------------------------

  predicate DistinctEmails(users: seq<UserRecord>)
  {
    forall i, j :: 0 <= i < j < |users| ==> users[i].email != users[j].email
  }

  /**
   * A successful registration grows the list by exactly one record at the end,
   * keeps the earlier records in order, and changes no other key.
   */
  lemma RegistrationAppendsOne(entries: map<string, Value>, form: RegistrationForm, today: Date)
    requires Register(entries, form, today).outcome == Registered
    ensures var after := Register(entries, form, today).entries;
      && UsersKey in after && after[UsersKey].UserList?
      && |after[UsersKey].users| == |UsersIn(entries)| + 1
      && after[UsersKey].users[..|UsersIn(entries)|] == UsersIn(entries)
      && after[UsersKey].users[|UsersIn(entries)|] == NewUser(form)
      && forall key :: key != UsersKey ==> Lookup(after, key) == Lookup(entries, key)
  {
    var after := Register(entries, form, today).entries;
    assert after[UsersKey].users == UsersIn(entries) + [NewUser(form)];
  }

  /** If stored emails were pairwise distinct, they still are after any press of the button. */
  lemma RegistrationKeepsEmailsDistinct(entries: map<string, Value>, form: RegistrationForm, today: Date)
    requires DistinctEmails(UsersIn(entries))
    ensures DistinctEmails(UsersIn(Register(entries, form, today).entries))
  {
    var r := Register(entries, form, today);
    if r.outcome.Registered? {
      var old_ := UsersIn(entries);
      var new_ := UsersIn(r.entries);
      assert Lookup(r.entries, UsersKey) == Some(UserList(old_ + [NewUser(form)]));
      assert new_ == old_ + [NewUser(form)];
      assert !SomeHasEmail(old_, form.email);
      forall i, j | 0 <= i < j < |new_| ensures new_[i].email != new_[j].email {
        if j == |old_| {
          assert new_[i] == old_[i];
        } else {
          assert new_[i] == old_[i] && new_[j] == old_[j];
        }
      }
    }
  }

  /**
   * After a successful registration, any later form with the same email is
   * refused and leaves the store alone; once it passes the five field checks,
   * the refusal is `DuplicateEmail`.
   */
  lemma RegisteringTwiceIsDuplicate(entries: map<string, Value>, form: RegistrationForm, today: Date,
                                    again: RegistrationForm, later: Date)
    requires Register(entries, form, today).outcome == Registered
    requires again.email == form.email
    ensures var after := Register(entries, form, today).entries;
      && Register(after, again, later).outcome.Rejected?
      && Register(after, again, later).entries == after
      && (PassesChecksBefore(Rank(StorageFailure), again, later, Lookup(after, UsersKey)) ==>
            Register(after, again, later).outcome == Rejected(DuplicateEmail))
  {
    var after := Register(entries, form, today).entries;
    var users := UsersIn(entries) + [NewUser(form)];
    assert Lookup(after, UsersKey) == Some(UserList(users));
    assert users[|users| - 1].email == again.email;
    DecideReportsFirstViolation(again, later, Lookup(after, UsersKey), DuplicateEmail);
  }

  /**
   * A `users` entry holding a falsy JSON literal is read like a missing one:
   * the registration reaches the same verdict and appends to an empty list.
   */
  lemma FalsyStoredUsersReadAsEmpty(entries: map<string, Value>, form: RegistrationForm, today: Date)
    requires UsersKey in entries && entries[UsersKey].Text? && entries[UsersKey].text in FalsyJsonTexts
    ensures Decide(form, today, Lookup(entries, UsersKey)) == Decide(form, today, None)
    ensures Register(entries, form, today).outcome == Registered ==>
              Register(entries, form, today).entries == entries[UsersKey := UserList([NewUser(form)])]
  {
    assert UsersIn(entries) == [];
    assert [] + [NewUser(form)] == [NewUser(form)];
  }

  /** An adult with a fresh Gmail address and an 8-character password is registered into an empty store. */
  lemma AcceptedExample()
    ensures var form := RegistrationForm("A", "a@gmail.com", "12345678", "12345678", "Nam", Date(2006, 5, 1));
      var r := Register(map[], form, Date(2025, 5, 1));
      r.outcome == Registered && r.entries == map[UsersKey := UserList([NewUser(form)])]
  {
    EmailExamples();
    var form := RegistrationForm("A", "a@gmail.com", "12345678", "12345678", "Nam", Date(2006, 5, 1));
    assert Lookup(map[], UsersKey) == None;
    assert CalculateAge(Date(2025, 5, 1), form.birthDate) == 19;
    assert Decide(form, Date(2025, 5, 1), None) == Registered;
    assert UsersIn(map[]) + [NewUser(form)] == [NewUser(form)];
  }

  /** The same form with a Yahoo address is rejected for its format and the store stays empty. */
  lemma YahooExample()
    ensures var form := RegistrationForm("A", "a@yahoo.com", "12345678", "12345678", "Nam", Date(2006, 5, 1));
      Register(map[], form, Date(2025, 5, 1)) == Registration(Rejected(BadEmailFormat), map[])
  {
    EmailExamples();
  }

}
