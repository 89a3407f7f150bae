/**
 * The administrator session hook of `src/hooks/useAuth.ts`: an authenticated flag that a
 * successful login sets and persists to browser storage, that logout clears and
 * un-persists, and that is rehydrated from storage when the hook mounts.
 */
module Session {
  import Credentials

  /** The browser-storage key holding the persisted flag. */
  const StorageKey := "admin_authenticated"

  /** The hook's flag together with the browser storage it persists to. */
  datatype State = State(isAuthenticated: bool, storage: map<string, string>)

  /** The stored value is exactly `'true'`. */
  predicate StoredTrue(storage: map<string, string>) {
    StorageKey in storage && storage[StorageKey] == "true"
  }

  /** The mount effect: set the flag when storage says `'true'`, leave it alone otherwise. */
  function Rehydrate(s: State): (s': State)
    ensures s'.storage == s.storage
    ensures s'.isAuthenticated <==> s.isAuthenticated || StoredTrue(s.storage)
  {
    if StoredTrue(s.storage) then s.(isAuthenticated := true) else s
  }

  /** A freshly mounted hook: the flag starts false, then the mount effect runs. */
  function Mounted(storage: map<string, string>): (s: State)
    ensures s.storage == storage
    ensures s.isAuthenticated <==> StoredTrue(storage)
  {
    Rehydrate(State(false, storage))
  }

  /** `login(username, password)`: on the administrator pair, set the flag and persist `'true'`; otherwise change nothing. */
  function LoginStep(s: State, username: string, password: string): (r: (State, bool))
    ensures r.1 <==> username == "admin" && password == "batman267"
    ensures r.1 ==> r.0.isAuthenticated && StoredTrue(r.0.storage)
    ensures !r.1 ==> r.0 == s
    ensures forall k | k in s.storage && k != StorageKey :: k in r.0.storage && r.0.storage[k] == s.storage[k]
    ensures r.1 ==> r.0.storage == s.storage[StorageKey := "true"]
  {
    if Credentials.IsAdmin(username, password) then
      (State(true, s.storage[StorageKey := "true"]), true)
    else
      (s, false)
  }

  /** `logout()`: clear the flag and remove the stored key, whatever the state was. */
  function LogoutStep(s: State): (s': State)
    ensures !s'.isAuthenticated && StorageKey !in s'.storage
    ensures forall k | k in s.storage && k != StorageKey :: k in s'.storage && s'.storage[k] == s.storage[k]
    ensures s'.storage.Keys == s.storage.Keys - {StorageKey}
  {
    State(false, s.storage - {StorageKey})
  }

  /** A mounted hook is authenticated exactly when storage holds `'true'`. */
  lemma MountedIff(storage: map<string, string>)
    ensures Mounted(storage).isAuthenticated <==> StoredTrue(storage)
  {
  }

  /** Logging out twice is logging out once. */
  lemma LogoutIdempotent(s: State)
    ensures LogoutStep(LogoutStep(s)) == LogoutStep(s)
  {
  }

  /** After a successful login a reload finds the session authenticated. */
  lemma LoginSurvivesReload(s: State, username: string, password: string)
    requires LoginStep(s, username, password).1
    ensures Mounted(LoginStep(s, username, password).0.storage).isAuthenticated
  {
  }

  /** After a logout a reload finds the session not authenticated. */
  lemma LogoutSurvivesReload(s: State)
    ensures !Mounted(LogoutStep(s).storage).isAuthenticated
  {
  }

  /** The browser's local storage, shared by every mount of the hook. */
  class LocalStorage {
    var items: map<string, string>

    constructor (items: map<string, string>)
      ensures this.items == items
    {
      this.items := items;
    }
  }

  /** One mounted instance of the hook. */
  class AuthHook {
    var isAuthenticated: bool
    const storage: LocalStorage

    function Current(): State
      reads this, storage
    {
      State(isAuthenticated, storage.items)
    }

    /** `useState(false)`: the flag starts false, before the mount effect. */
    constructor (storage: LocalStorage)
      ensures this.storage == storage && !isAuthenticated
    {
      this.storage := storage;
      isAuthenticated := false;
    }

    /** The mount effect: read the stored value and set the flag when it is `'true'`. */
    method RunMountEffect()
      modifies this
      ensures Current() == Rehydrate(old(Current()))
    {
      if StorageKey in storage.items && storage.items[StorageKey] == "true" {
        isAuthenticated := true;
      }
    }

    method Login(username: string, password: string) returns (ok: bool)
      modifies this, storage
      ensures (Current(), ok) == LoginStep(old(Current()), username, password)
    {
      if username == "admin" && password == "batman267" {
        isAuthenticated := true;
        storage.items := storage.items[StorageKey := "true"];
        return true;
      }
      return false;
    }

    method Logout()
      modifies this, storage
      ensures Current() == LogoutStep(old(Current()))
    {
      isAuthenticated := false;
      storage.items := storage.items - {StorageKey};
    }
  }

  /** Mounting the hook over a storage: construct it, then run the mount effect. */
  method Mount(storage: LocalStorage) returns (hook: AuthHook)
    ensures fresh(hook) && hook.storage == storage
    ensures hook.Current() == Mounted(storage.items)
  {
    hook := new AuthHook(storage);
    hook.RunMountEffect();
  }

  /** Logging in and reloading the page keeps the session. */
  method LoginThenReload(storage: LocalStorage, username: string, password: string)
    returns (ok: bool, reloaded: AuthHook)
    modifies storage
    ensures ok ==> reloaded.isAuthenticated
  {
    var hook := Mount(storage);
    ok := hook.Login(username, password);
    reloaded := Mount(storage);
  }

  /** Logging out and reloading the page ends the session. */
  method LogoutThenReload(storage: LocalStorage) returns (reloaded: AuthHook)
    modifies storage
    ensures !reloaded.isAuthenticated
  {
    var hook := Mount(storage);
    hook.Logout();
    reloaded := Mount(storage);
  }
}
