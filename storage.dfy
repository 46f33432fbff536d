/**
 * The storage object: how its constructor classifies the connection-string
 * argument, the default queue provider it registers, and the registry of
 * open connections. A connection is identified by a number; the server all
 * of them talk to is one `Database`.
 */
module Storage {
  import opened Wrappers
  import opened Tables
  import opened StorageOptions
  import opened QueueProviders

  /** `IsConnectionString`: the argument contains a `;`. */
  predicate IsConnectionString(nameOrConnectionString: string) {
    ';' in nameOrConnectionString
  }

  /**
   * The connection string the constructor settles on. A null argument or null
   * options throw, in that order; an argument with a `;` is used verbatim;
   * any other argument names an entry of the application configuration
   * (`names`, a map from entry name to connection string), and a missing
   * entry throws an `ArgumentException` without a parameter name.
   */
  function ResolveConnectionString(nameOrConnectionString: Option<string>, hasOptions: bool,
                                   names: map<string, string>): (r: Result<string>)
    ensures nameOrConnectionString.None? ==> r == Err(ArgumentNull("nameOrConnectionString"))
    ensures nameOrConnectionString.Some? && !hasOptions ==> r == Err(ArgumentNull("options"))
    ensures nameOrConnectionString.Some? && hasOptions ==>
      var s := nameOrConnectionString.value;
      (IsConnectionString(s) ==> r == Ok(s)) &&
      (!IsConnectionString(s) && s in names ==> r == Ok(names[s])) &&
      (!IsConnectionString(s) && s !in names ==> r == Err(Argument(None)))
  {
    var args := [("nameOrConnectionString", nameOrConnectionString.Some?), ("options", hasOptions)];
    var check := CheckNotNull(args);
    if check.Fail? then Err(check.error)
    else
      assert args[0].1 && args[1].1;
      var s := nameOrConnectionString.value;
      if IsConnectionString(s) then Ok(s)
      else if s in names then Ok(names[s])
      else Err(Argument(None))
  }

  class MySqlStorage {
    const db: Database
    const connectionString: string
    const options: MySqlStorageOptions
    /** `QueueProviders`, created by `InitializeQueueProviders`. */
    const queueProviders: ProviderCollection
    /** `_connections`: the connections opened and not yet released. */
    var connections: set<nat>
    /** The next connection number handed out. */
    var nextConnection: nat

    ghost predicate Valid()
      reads this, queueProviders
    {
      queueProviders.Valid() && queueProviders.defaultProvider == MySqlQueueProvider &&
      forall c :: c in connections ==> c < nextConnection
    }

    constructor (db: Database, connectionString: string, options: MySqlStorageOptions)
      ensures Valid() && fresh(queueProviders)
      ensures this.db == db && this.connectionString == connectionString && this.options == options
      ensures queueProviders.providers == [MySqlQueueProvider] && queueProviders.byQueue == map[]
      ensures connections == {}
    {
      this.db := db;
      this.connectionString := connectionString;
      this.options := options;
      queueProviders := new ProviderCollection(MySqlQueueProvider);
      connections := {};
      nextConnection := 0;
    }

    /**
     * `new MySqlStorage(nameOrConnectionString, options)`: the connection string
     * is resolved as above, and the queue providers start with the MySQL queue
     * as the default.
     */
    static method Create(db: Database, nameOrConnectionString: Option<string>, options: Option<MySqlStorageOptions>,
                         names: map<string, string>) returns (r: Result<MySqlStorage>)
      ensures var cs := ResolveConnectionString(nameOrConnectionString, options.Some?, names);
        (r.Err? <==> cs.Err?) && (r.Err? ==> r.error == cs.error) &&
        (r.Ok? ==> fresh(r.value) && fresh(r.value.queueProviders) && r.value.Valid() &&
                   r.value.db == db && r.value.connectionString == cs.value && r.value.options == options.value &&
                   r.value.queueProviders.providers == [MySqlQueueProvider] &&
                   r.value.queueProviders.byQueue == map[] && r.value.connections == {})
    {
      var cs := ResolveConnectionString(nameOrConnectionString, options.Some?, names);
      if cs.Err? {
        return Err(cs.error);
      }
      var s := new MySqlStorage(db, cs.value, options.value);
      return Ok(s);
    }

    /** `CreateAndOpenConnection`: a new connection, recorded in the registry. */
    method CreateAndOpenConnection() returns (c: nat)
      requires Valid()
      modifies this`connections, this`nextConnection
      ensures Valid()
      ensures c !in old(connections) && connections == old(connections) + {c}
    {
      c := nextConnection;
      nextConnection := nextConnection + 1;
      connections := connections + {c};
    }

    /** `ReleaseConnection`: the connection is disposed and leaves the registry. */
    method ReleaseConnection(c: nat)
      requires Valid()
      modifies this`connections
      ensures Valid()
      ensures connections == old(connections) - {c}
    {
      connections := connections - {c};
    }

    /**
     * `UseConnection(func)`: opens a connection, runs `func` on the store and
     * releases the connection in `finally`. The callback is a function of the
     * store's tables that either gives the new tables and its result, or
     * throws, in which case the store is left as it was.
     */
    method UseConnection<T>(func: Tables -> Result<(Tables, T)>) returns (r: Result<T>)
      requires Valid()
      modifies this`connections, this`nextConnection, db
      ensures Valid()
      ensures connections == old(connections)
      ensures var out := func(old(db.tables));
        (out.Ok? ==> r == Ok(out.value.1) && db.tables == out.value.0) &&
        (out.Err? ==> r == Err(out.error) && db.tables == old(db.tables))
    {
      var c := CreateAndOpenConnection();
      var out := func(db.tables);
      if out.Ok? {
        db.tables := out.value.0;
        r := Ok(out.value.1);
      } else {
        r := Err(out.error);
      }
      ReleaseConnection(c);
    }

    /** `Dispose`: every open connection is disposed and the registry is cleared. */
    method Dispose()
      requires Valid()
      modifies this`connections
      ensures Valid()
      ensures connections == {}
    {
      connections := {};
    }
  }
}
