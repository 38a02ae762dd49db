/**
 * The session provider (src/context/SessionContext.tsx): who is logged in,
 * taken from a `user` URL parameter or from the copy kept in local storage
 * under 'userData', and the logout that clears both.
 *
 * `decodeURIComponent`, `JSON.parse` and `JSON.stringify` are parameters:
 * the first two are partial (None where they throw), `parse` reads a user.
 * The session's `logout` is a closure; `realLogout` says whether it is the
 * one built at login, which clears the session, or the no-op the session
 * starts with and is reset to after a bad parameter.
 */
module Session {
  import opened Js

  datatype User = User(id: int, username: string, email: string, profilePic: string)

  datatype Session = Session(user: Option<User>, realLogout: bool)

  /** The provider's session together with the browser's local storage. */
  datatype State = State(session: Session, storage: Storage)

  const UserKey := "userData"

  /** A session with no user and the do-nothing logout. */
  const Anonymous := Session(None, false)

  /** `handleUserLogin`: the user is in the session, with a working logout, and is stored. */
  function Login(st: State, u: User, stringify: User -> string): (r: State)
    ensures r.session.user == Some(u) && r.session.realLogout
    ensures UserKey in r.storage && r.storage[UserKey] == stringify(u)
    ensures forall k :: k in st.storage && k != UserKey ==> k in r.storage && r.storage[k] == st.storage[k]
    ensures forall k :: k in r.storage ==> k == UserKey || k in st.storage
  {
    State(Session(Some(u), true), st.storage[UserKey := stringify(u)])
  }

  /** Calling the session's `logout`: the one built at login clears the user and the stored copy. */
  function Logout(st: State): (r: State)
    ensures st.session.realLogout ==> r.session.user.None? && r.storage == st.storage - {UserKey}
    ensures !st.session.realLogout ==> r == st
  {
    if st.session.realLogout then State(Session(None, true), st.storage - {UserKey}) else st
  }

  /**
   * The effect run on every change of the URL parameters; `userParam` is
   * `searchParams.get('user')`.  A non-empty parameter is decoded and parsed:
   * a user is logged in, a failure gives the anonymous session.  Without one,
   * a non-empty stored value is parsed and logged in; failing to parse it
   * throws outside any `try`, so the effect stops (None) with nothing changed.
   */
  function Effect(st: State, userParam: Option<string>, decode: string -> Option<string>,
                  parse: string -> Option<User>, stringify: User -> string): (r: Option<State>)
    ensures userParam.Some? && userParam.value != "" ==> r.Some?
    ensures r.Some? && r.value.session.user.None? ==> r.value.storage == st.storage
    ensures r.None? <==> (userParam.None? || userParam.value == "") && UserKey in st.storage
                         && st.storage[UserKey] != "" && parse(st.storage[UserKey]).None?
  {
    if userParam.Some? && userParam.value != "" then
      var decoded := decode(userParam.value);
      if decoded.Some? && parse(decoded.value).Some? then Some(Login(st, parse(decoded.value).value, stringify))
      else Some(State(Anonymous, st.storage))
    else if UserKey in st.storage && st.storage[UserKey] != "" then
      var stored := parse(st.storage[UserKey]);
      if stored.Some? then Some(Login(st, stored.value, stringify)) else None
    else Some(st)
  }

  /** A user in the URL that reads back wins over whatever is stored, and replaces it. */
  lemma UrlUserWins(st: State, param: string, decode: string -> Option<string>,
                    parse: string -> Option<User>, stringify: User -> string, u: User)
    requires param != "" && decode(param).Some? && parse(decode(param).value) == Some(u)
    ensures Effect(st, Some(param), decode, parse, stringify) == Some(Login(st, u, stringify))
  {
  }

  /** A URL parameter that does not read back leaves no user and the storage as it was. */
  lemma BadUrlUserClears(st: State, param: string, decode: string -> Option<string>,
                         parse: string -> Option<User>, stringify: User -> string)
    requires param != "" && (decode(param).None? || parse(decode(param).value).None?)
    ensures Effect(st, Some(param), decode, parse, stringify) == Some(State(Anonymous, st.storage))
  {
  }

  /**
   * Without a parameter, a non-empty stored value that parses as a user logs
   * that user in, whoever wrote it.
   */
  lemma StoredUserRestored(st: State, userParam: Option<string>, decode: string -> Option<string>,
                           parse: string -> Option<User>, stringify: User -> string, u: User)
    requires userParam.None? || userParam.value == ""
    requires UserKey in st.storage && st.storage[UserKey] != "" && parse(st.storage[UserKey]) == Some(u)
    ensures Effect(st, userParam, decode, parse, stringify) == Some(Login(st, u, stringify))
  {
  }

  /** Without a parameter and without a stored user nothing changes. */
  lemma NothingToRestore(st: State, userParam: Option<string>, decode: string -> Option<string>,
                         parse: string -> Option<User>, stringify: User -> string)
    requires userParam.None? || userParam.value == ""
    requires UserKey !in st.storage || st.storage[UserKey] == ""
    ensures Effect(st, userParam, decode, parse, stringify) == Some(st)
  {
  }

  /**
   * A logged-in user survives a reload: when parsing reads back what
   * stringifying wrote, the effect without a parameter logs the same user in
   * from storage, into the same state.
   */
  lemma LoginSurvivesReload(st: State, u: User, decode: string -> Option<string>,
                            parse: string -> Option<User>, stringify: User -> string)
    requires stringify(u) != "" && parse(stringify(u)) == Some(u)
    ensures Effect(Login(st, u, stringify), None, decode, parse, stringify) == Some(Login(st, u, stringify))
  {
    var s1 := Login(st, u, stringify);
    assert s1.storage[UserKey := stringify(u)] == s1.storage;
  }

  /** After logging out, a reload without a parameter restores nobody. */
  lemma LogoutSurvivesReload(st: State, u: User, decode: string -> Option<string>,
                             parse: string -> Option<User>, stringify: User -> string)
    ensures var out := Logout(Login(st, u, stringify));
      out.session.user.None? && Effect(out, None, decode, parse, stringify) == Some(out)
  {
  }

  /** The provider: its session state and the local storage it writes. */
  class SessionProvider {
    var session: Session
    var storage: Storage

    constructor(storage: Storage)
      ensures session == Anonymous && this.storage == storage
    {
      session := Anonymous;
      this.storage := storage;
    }

    function Current(): State
      reads this
    {
      State(session, storage)
    }

    /** `handleUserLogin`. */
    method HandleUserLogin(u: User, stringify: User -> string)
      modifies this
      ensures Current() == Login(old(Current()), u, stringify)
    {
      session := Session(Some(u), true);
      storage := storage[UserKey := stringify(u)];
    }

    /** Calling `session.logout()`. */
    method CallLogout()
      modifies this
      ensures Current() == Logout(old(Current()))
    {
      if session.realLogout {
        session := Session(None, true);
        storage := storage - {UserKey};
      }
    }

    /** The effect; `crashed` is set when parsing the stored user threw. */
    method RunEffect(userParam: Option<string>, decode: string -> Option<string>,
                     parse: string -> Option<User>, stringify: User -> string) returns (crashed: bool)
      modifies this
      ensures var r := Effect(old(Current()), userParam, decode, parse, stringify);
        (crashed <==> r.None?) && (r.Some? ==> Current() == r.value) && (r.None? ==> Current() == old(Current()))
    {
      crashed := false;
      if userParam.Some? && userParam.value != "" {
        var decoded := decode(userParam.value);
        if decoded.Some? && parse(decoded.value).Some? {
          HandleUserLogin(parse(decoded.value).value, stringify);
        } else {
          session := Anonymous;
        }
      } else if UserKey in storage && storage[UserKey] != "" {
        var stored := parse(storage[UserKey]);
        if stored.Some? {
          HandleUserLogin(stored.value, stringify);
        } else {
          crashed := true;
        }
      }
    }
  }
}
