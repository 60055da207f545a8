/** `Config.load`: defaults, TOML file, data directory and command line merged in a fixed sequence. */
module ConfigLoad {
  import opened Wrappers
  import opened ConfigMerge

  /** What `load` gets from outside: path helpers and the parser of currencies given on the command line. */
  datatype Env = Env(
    resolveHome: Scalar -> Scalar,
    join: (Scalar, string) -> Scalar,
    parseCurrencies: (Value, Value) -> Scalar)
  {
    /** A joined path is never empty. */
    ghost predicate Valid() {
      forall dir, name :: Truthy(Leaf(join(dir, name)))
    }
  }

  const PATHS: map<string, string> :=
    map["mnemonicpath" := "seed.dat", "mnemonicpathEvm" := "seed.dat", "dbpath" := "boltz.db",
        "logpath" := "boltz.log"]

  function DataDirPaths(env: Env, dir: Scalar): Value {
    Node((map k | k in PATHS :: Leaf(env.join(dir, PATHS[k])))["configpath" := Leaf(env.join(dir, "boltz.conf"))])
  }

  function Put(v: Value, key: string, value: Value): Value
    requires v.Node?
  {
    Node(v.fields[key := value])
  }

  /** Assigning `config.grpc.certificates` throws unless `grpc` is an object. */
  function PutCertificates(config: Value, value: Value): Option<Value>
    requires config.Node?
  {
    var grpc := Field(config, "grpc");
    if grpc.Node? then Some(Put(config, "grpc", Put(grpc, "certificates", value))) else None
  }

  /** The data directory: from the command line if given, else what the config holds after the TOML file. */
  function DataDir(env: Env, merged: Value, args: Value): Option<Scalar> {
    var chosen := if Truthy(Field(args, "datadir")) then Field(args, "datadir") else Field(merged, "datadir");
    if chosen.Leaf? then Some(env.resolveHome(chosen.scalar)) else None
  }

  /** The tree with the TOML file merged once and the data directory and its paths in place. */
  function Based(env: Env, config: Value, toml: Value, dir: Scalar): Value
    requires config.Node?
  {
    Merge(Put(Merge(config, toml), "datadir", Leaf(dir)), DataDirPaths(env, dir))
  }

  /** The tree before the command line is merged; None if `load` throws. */
  function BeforeArgs(env: Env, config: Value, toml: Value, args: Value): (r: Option<Value>)
    requires config.Node?
    ensures r.Some? ==> r.value.Node?
  {
    match DataDir(env, Merge(config, toml), args)
    case None => None
    case Some(dir) =>
      var based := Based(env, config, toml, dir);
      var withCertificates :=
        if Truthy(Field(Field(toml, "grpc"), "certificates")) then Some(based)
        else PutCertificates(based, Leaf(env.join(dir, "certificates")));
      match withCertificates {
        case None => None
        case Some(c) => Some(Merge(c, toml))
      }
  }

  /** The path of the config file: resolved from the command line if given there, else the default. */
  function ConfigFile(env: Env, config: Value, args: Value): Option<Value> {
    var given := Field(args, "configpath");
    if !Truthy(given) then Some(Field(config, "configpath"))
    else if given.Leaf? then Some(Leaf(env.resolveHome(given.scalar)))
    else None
  }

  /** The command line with its currencies parsed on top of the configured ones. */
  function ParsedArgs(env: Env, c: Value, args: Value): Value
    requires args.Node?
  {
    if Truthy(Field(args, "currencies")) then
      Put(args, "currencies", Leaf(env.parseCurrencies(Field(args, "currencies"), Field(c, "currencies"))))
    else args
  }

  function Finish(env: Env, c: Value, args: Value, file: Value): Value
    requires c.Node? && args.Node?
  {
    var args' := ParsedArgs(env, c, args);
    var c' := if Truthy(Field(args, "currencies")) then
                Merge(c, Node(map["currencies" := Field(args', "currencies")]))
              else c;
    Put(Merge(c', args'), "configpath", file)
  }

  /** A missing TOML file is `Undefined`, which merges to nothing. */
  function Load(env: Env, config: Value, toml: Value, args: Value): Option<Value>
    requires config.Node? && args.Node?
  {
    match (ConfigFile(env, config, args), BeforeArgs(env, config, toml, args))
    case (Some(file), Some(c)) => Some(Finish(env, c, args, file))
    case _ => None
  }

  lemma MergeIsNode(config: Value, source: Value)
    requires config.Node?
    ensures Merge(config, source).Node?
  {}

  class Config {
    var config: Value

    constructor (defaults: Value)
      ensures config == defaults
    {
      config := defaults;
    }

    /** Merges the TOML file and the data directory's paths; false if that throws. */
    method MergeFiles(env: Env, toml: Value, args: Value) returns (ok: bool)
      requires config.Node?
      modifies this
      ensures ok == BeforeArgs(env, old(config), toml, args).Some?
      ensures ok ==> config == BeforeArgs(env, old(config), toml, args).value
    {
      hide Merge, MergeField, DataDirPaths;
      MergeIsNode(config, toml);
      config := DeepMerge(config, toml);
      var chosen := if Truthy(Field(args, "datadir")) then Field(args, "datadir") else Field(config, "datadir");
      if !chosen.Leaf? {
        return false;
      }
      var dir := env.resolveHome(chosen.scalar);
      config := Put(config, "datadir", Leaf(dir));
      MergeIsNode(config, DataDirPaths(env, dir));
      config := DeepMerge(config, DataDirPaths(env, dir));
      if !Truthy(Field(Field(toml, "grpc"), "certificates")) {
        var grpc := Field(config, "grpc");
        if !grpc.Node? {
          return false;
        }
        config := Put(config, "grpc", Put(grpc, "certificates", Leaf(env.join(dir, "certificates"))));
      }
      MergeIsNode(config, toml);
      config := DeepMerge(config, toml);
      return true;
    }

    /** False if loading throws; the original's fields are then left half merged. */
    method LoadInto(env: Env, toml: Value, args: Value) returns (ok: bool)
      requires config.Node? && args.Node?
      modifies this
      ensures ok == Load(env, old(config), toml, args).Some?
      ensures ok ==> config == Load(env, old(config), toml, args).value
    {
      hide Merge, MergeField, BeforeArgs;
      var given := Field(args, "configpath");
      if given.Node? {
        return false;
      }
      var file := if Truthy(given) then Leaf(env.resolveHome(given.scalar)) else Field(config, "configpath");
      var merged := MergeFiles(env, toml, args);
      if !merged {
        return false;
      }
      var args' := args;
      if Truthy(Field(args, "currencies")) {
        var parsed := Leaf(env.parseCurrencies(Field(args, "currencies"), Field(config, "currencies")));
        args' := Put(args, "currencies", parsed);
        MergeIsNode(config, Node(map["currencies" := parsed]));
        config := DeepMerge(config, Node(map["currencies" := parsed]));
      }
      MergeIsNode(config, args');
      config := DeepMerge(config, args');
      config := Put(config, "configpath", file);
      return true;
    }
  }

  // Precedence

  function Preferred(args: Value, toml: Value, default: Value): Value {
    if args.Leaf? then args else if toml.Leaf? then toml else default
  }

  lemma MergeKey(config: Value, source: Value, key: string)
    requires config.Node?
    ensures Merge(config, source).Node?
    ensures Field(Merge(config, source), key) == MergeField(Field(config, key), Field(source, key))
  {
    if source.Node? {
      FieldOfMerge(config, source, key);
    }
  }

  /** A truthy leaf is only replaced by a leaf. */
  lemma LeafWins(current: Value, source: Value)
    requires current.Leaf? && Truthy(current)
    ensures MergeField(current, source) == if source.Leaf? then source else current
  {}

  lemma BasedKey(env: Env, config: Value, toml: Value, dir: Scalar, key: string)
    requires config.Node?
    ensures var based := Based(env, config, toml, dir);
            && based.Node?
            && (key in PATHS ==> Field(based, key) == Leaf(env.join(dir, PATHS[key])))
            && (key == "datadir" ==> Field(based, key) == Leaf(dir))
            && (key in {"grpc", "currencies"} ==>
                  Field(based, key) == MergeField(Field(config, key), Field(toml, key)))
  {
    hide Merge, MergeField;
    MergeKey(config, toml, key);
    var placed := Put(Merge(config, toml), "datadir", Leaf(dir));
    MergeKey(placed, DataDirPaths(env, dir), key);
    FieldOfPaths(env, dir, key);
    MergeFieldOfLeaf(Field(placed, key), Field(DataDirPaths(env, dir), key));
  }

  lemma FieldOfPaths(env: Env, dir: Scalar, key: string)
    ensures key in PATHS ==> Field(DataDirPaths(env, dir), key) == Leaf(env.join(dir, PATHS[key]))
    ensures key in {"datadir", "grpc", "currencies"} ==>
              Field(DataDirPaths(env, dir), key) == Undefined && key !in PATHS
  {}

  lemma MergeFieldOfLeaf(current: Value, source: Value)
    requires !source.Node?
    ensures MergeField(current, source) == if source.Leaf? then source else current
  {}

  /** Away from `grpc`, merging the TOML file a second time is all that happens to the based tree. */
  lemma BeforeArgsKey(env: Env, config: Value, toml: Value, args: Value, key: string)
    requires config.Node? && BeforeArgs(env, config, toml, args).Some?
    ensures DataDir(env, Merge(config, toml), args).Some? && BeforeArgs(env, config, toml, args).value.Node?
    ensures key != "grpc" ==>
              Field(BeforeArgs(env, config, toml, args).value, key)
              == MergeField(Field(Based(env, config, toml, DataDir(env, Merge(config, toml), args).value), key),
                            Field(toml, key))
  {
    hide Based, Merge, MergeField, DataDir;
    var dir := DataDir(env, Merge(config, toml), args).value;
    var based := Based(env, config, toml, dir);
    BasedKey(env, config, toml, dir, key);
    var c := if Truthy(Field(Field(toml, "grpc"), "certificates")) then based
             else PutCertificates(based, Leaf(env.join(dir, "certificates"))).value;
    MergeKey(c, toml, key);
  }

  lemma FinishKey(env: Env, c: Value, args: Value, file: Value, key: string)
    requires c.Node? && args.Node?
    ensures var loaded := Finish(env, c, args, file);
            && (key == "configpath" ==> Field(loaded, key) == file)
            && (key == "currencies" ==>
                  Field(loaded, key) == MergeField(Field(c, key), Field(ParsedArgs(env, c, args), key)))
            && (key !in {"configpath", "currencies"} ==>
                  Field(loaded, key) == MergeField(Field(c, key), Field(args, key)))
  {
    hide Merge, MergeField;
    var args' := ParsedArgs(env, c, args);
    var parsed := Node(map["currencies" := Field(args', "currencies")]);
    var has := Truthy(Field(args, "currencies"));
    var c' := if has then Merge(c, parsed) else c;
    MergeKey(c, parsed, key);
    MergeKey(c', args', key);
    if has {
      MergeFieldOfLeaf(Field(c, key), Field(parsed, key));
      if key == "currencies" {
        MergeFieldOfLeaf(Field(c', key), Field(args', key));
      }
    }
  }

  lemma LoadKey(env: Env, config: Value, toml: Value, args: Value, key: string)
    requires config.Node? && args.Node? && Load(env, config, toml, args).Some?
    requires key != "currencies" && key != "configpath"
    ensures BeforeArgs(env, config, toml, args).Some?
    ensures Field(Load(env, config, toml, args).value, key)
         == MergeField(Field(BeforeArgs(env, config, toml, args).value, key), Field(args, key))
  {
    hide BeforeArgs, Finish, MergeField;
    var c := BeforeArgs(env, config, toml, args).value;
    FinishKey(env, c, args, ConfigFile(env, config, args).value, key);
  }

  /** The stored config path is the file that was read: the command line's, resolved, else the default. */
  lemma ConfigPathIs(env: Env, config: Value, toml: Value, args: Value)
    requires config.Node? && args.Node? && Load(env, config, toml, args).Some?
    ensures var given := Field(args, "configpath");
            && !given.Node?
            && Field(Load(env, config, toml, args).value, "configpath")
               == if given in FALSY then Field(config, "configpath") else Leaf(env.resolveHome(given.scalar))
  {
    TruthyIff(Field(args, "configpath"));
    FinishKey(env, BeforeArgs(env, config, toml, args).value, args, ConfigFile(env, config, args).value, "configpath");
    hide BeforeArgs, Finish, MergeField;
  }

  /**
   The currencies are those of the command line parsed on top of the TOML file's, which replace the defaults;
   a falsy value on the command line replaces them unparsed. An object in the TOML file gives way to the
   defaults, which have a list.
   */
  lemma CurrenciesAre(env: Env, config: Value, toml: Value, args: Value)
    requires config.Node? && args.Node? && Load(env, config, toml, args).Some?
    requires Field(toml, "currencies").Node? ==>
               Field(config, "currencies").Leaf? && Truthy(Field(config, "currencies"))
    ensures var given := Field(args, "currencies");
            var configured := Preferred(Undefined, Field(toml, "currencies"), Field(config, "currencies"));
            Field(Load(env, config, toml, args).value, "currencies")
            == if given !in FALSY then Leaf(env.parseCurrencies(given, configured))
               else if given.Leaf? then given else configured
  {
    hide BeforeArgs, Finish, Based, Merge, MergeField, DataDir;
    var given := Field(args, "currencies");
    TruthyIff(given);
    LoadHasBefore(env, config, toml, args);
    var c := BeforeArgs(env, config, toml, args).value;
    BasedKey(env, config, toml, DataDir(env, Merge(config, toml), args).value, "currencies");
    BeforeArgsKey(env, config, toml, args, "currencies");
    var configured := Field(config, "currencies");
    MergeFieldTwice(configured, Field(toml, "currencies"));
    if Field(toml, "currencies").Node? {
      LeafWins(configured, Field(toml, "currencies"));
    } else {
      MergeFieldOfLeaf(configured, Field(toml, "currencies"));
    }
    FinishKey(env, c, args, ConfigFile(env, config, args).value, "currencies");
    MergeFieldOfLeaf(Field(c, "currencies"), Field(ParsedArgs(env, c, args), "currencies"));
  }

  /**
   Each path setting ends up as the command line's leaf, else the TOML file's, else the file in the data
   directory, exactly unless the command line has an object where the TOML file has a falsy leaf.
   */
  lemma PathPrecedenceIff(env: Env, config: Value, toml: Value, args: Value, key: string)
    requires env.Valid() && config.Node? && args.Node? && key in PATHS && Load(env, config, toml, args).Some?
    ensures var default := Leaf(env.join(DataDir(env, Merge(config, toml), args).value, PATHS[key]));
            Field(Load(env, config, toml, args).value, key) == Preferred(Field(args, key), Field(toml, key), default)
            <==> !(Field(args, key).Node? && Field(toml, key).Leaf? && !Truthy(Field(toml, key)))
  {
    hide Load, BeforeArgs, Based, Merge, DataDir;
    LoadHasBefore(env, config, toml, args);
    var dir := DataDir(env, Merge(config, toml), args).value;
    BasedKey(env, config, toml, dir, key);
    BeforeArgsKey(env, config, toml, args, key);
    LoadKey(env, config, toml, args, key);
    ThreeLayers(Leaf(env.join(dir, PATHS[key])), Field(toml, key), Field(args, key));
  }

  lemma LoadHasBefore(env: Env, config: Value, toml: Value, args: Value)
    requires config.Node? && args.Node? && Load(env, config, toml, args).Some?
    ensures BeforeArgs(env, config, toml, args).Some?
    ensures DataDir(env, Merge(config, toml), args).Some?
  {}

  /** When two merges onto a truthy leaf give the later leaf, else the earlier one, else the leaf itself. */
  lemma ThreeLayers(default: Value, toml: Value, args: Value)
    requires default.Leaf? && Truthy(default)
    ensures MergeField(MergeField(default, toml), args) == Preferred(args, toml, default)
            <==> !(args.Node? && toml.Leaf? && !Truthy(toml))
  {
    LeafWins(default, toml);
  }

  /** The files in the data directory that are used where nobody names another. */
  lemma DefaultFiles(env: Env, config: Value, toml: Value, args: Value)
    requires env.Valid() && config.Node? && args.Node? && Load(env, config, toml, args).Some?
    ensures var loaded := Load(env, config, toml, args).value;
            var dir := DataDir(env, Merge(config, toml), args).value;
            && (forall key :: key in ["mnemonicpath", "mnemonicpathEvm"] && Unnamed(toml, args, key) ==>
                  Field(loaded, key) == Leaf(env.join(dir, "seed.dat")))
            && (Unnamed(toml, args, "dbpath") ==> Field(loaded, "dbpath") == Leaf(env.join(dir, "boltz.db")))
            && (Unnamed(toml, args, "logpath") ==> Field(loaded, "logpath") == Leaf(env.join(dir, "boltz.log")))
  {
    hide Load, Merge, DataDir;
    PathPrecedenceIff(env, config, toml, args, "mnemonicpath");
    PathPrecedenceIff(env, config, toml, args, "mnemonicpathEvm");
    PathPrecedenceIff(env, config, toml, args, "dbpath");
    PathPrecedenceIff(env, config, toml, args, "logpath");
  }

  predicate Unnamed(toml: Value, args: Value, key: string) {
    Field(toml, key) == Undefined && Field(args, key) == Undefined
  }

  /** Without a command-line data directory, the TOML file's is used, else the default one. */
  lemma DataDirPrecedence(env: Env, config: Value, toml: Value, args: Value)
    requires config.Node? && Field(config, "datadir").Leaf? && Truthy(Field(config, "datadir"))
    requires !Truthy(Field(args, "datadir"))
    ensures DataDir(env, Merge(config, toml), args)
         == Some(env.resolveHome(Preferred(Undefined, Field(toml, "datadir"), Field(config, "datadir")).scalar))
  {
    MergeKey(config, toml, "datadir");
    LeafWins(Field(config, "datadir"), Field(toml, "datadir"));
  }

  lemma ChosenDataDir(env: Env, config: Value, toml: Value, args: Value)
    requires config.Node? && DataDir(env, Merge(config, toml), args).Some?
    ensures var given, fromToml := Field(args, "datadir"), Field(toml, "datadir");
            var dir := DataDir(env, Merge(config, toml), args).value;
            && !given.Node?
            && (Truthy(given) ==> dir == env.resolveHome(given.scalar))
            && (!Truthy(given) ==>
                  var other := Preferred(Undefined, fromToml, Field(config, "datadir"));
                  other.Leaf? && dir == env.resolveHome(other.scalar))
  {
    MergeKey(config, toml, "datadir");
  }

  lemma StoredDataDir(env: Env, config: Value, toml: Value, args: Value)
    requires config.Node? && args.Node? && Load(env, config, toml, args).Some?
    ensures DataDir(env, Merge(config, toml), args).Some?
    ensures var dir := DataDir(env, Merge(config, toml), args).value;
            Field(Load(env, config, toml, args).value, "datadir")
            == MergeField(MergeField(Leaf(dir), Field(toml, "datadir")), Field(args, "datadir"))
  {
    hide Load, BeforeArgs, Based, Merge, MergeField, DataDir;
    LoadHasBefore(env, config, toml, args);
    BasedKey(env, config, toml, DataDir(env, Merge(config, toml), args).value, "datadir");
    BeforeArgsKey(env, config, toml, args, "datadir");
    LoadKey(env, config, toml, args, "datadir");
  }

  /**
   The stored `datadir` is the command line's text, else the TOML file's, else the resolved directory,
   exactly unless the TOML file has an object there and the directory resolved to nothing.
   */
  lemma StoredDataDirIff(env: Env, config: Value, toml: Value, args: Value)
    requires config.Node? && args.Node? && Load(env, config, toml, args).Some?
    ensures var given, fromToml := Field(args, "datadir"), Field(toml, "datadir");
            var dir := DataDir(env, Merge(config, toml), args).value;
            Field(Load(env, config, toml, args).value, "datadir") == Preferred(given, fromToml, Leaf(dir))
            <==> given.Leaf? || !fromToml.Node? || Truthy(Leaf(dir))
  {
    hide Load, DataDir;
    StoredDataDir(env, config, toml, args);
    ChosenDataDir(env, config, toml, args);
  }

  /**
   The stored `datadir` is the directory that the other paths derive from exactly if the text that is put back
   resolves to itself; an empty text on the command line is put back without being used, so there the
   directory of the TOML file or the defaults would have to resolve to it.
   */
  lemma StoredDataDirIsResolvedIff(env: Env, config: Value, toml: Value, args: Value)
    requires config.Node? && args.Node? && Load(env, config, toml, args).Some?
    ensures var given, fromToml := Field(args, "datadir"), Field(toml, "datadir");
            var dir := DataDir(env, Merge(config, toml), args).value;
            Field(Load(env, config, toml, args).value, "datadir") == Leaf(dir)
            <==> if Truthy(given) then env.resolveHome(given.scalar) == given.scalar
                 else if given.Leaf? then
                   var used := Preferred(Undefined, fromToml, Field(config, "datadir"));
                   used.Leaf? && env.resolveHome(used.scalar) == given.scalar
                 else if fromToml.Leaf? then env.resolveHome(fromToml.scalar) == fromToml.scalar
                 else !fromToml.Node? || Truthy(Leaf(dir))
  {
    hide Load, DataDir;
    StoredDataDir(env, config, toml, args);
    ChosenDataDir(env, config, toml, args);
  }

  /** A home directory, and paths joined by a slash. */
  const HOME := Env(
    (s: Scalar) => if s.Text? && |s.s| > 0 && s.s[0] == '~' then Text("/home" + s.s[1..]) else s,
    (dir: Scalar, name: string) => Text((if dir.Text? then dir.s else "") + "/" + name),
    (_, _) => Array([]))

  const DEFAULTS := Node(map["datadir" := Leaf(Text("~/.boltz")), "grpc" := Node(map[])])

  function Only(key: string, value: Value): Value {
    Node(map[key := value])
  }

  /** With the defaults and sections that leave `grpc` alone, loading does not throw. */
  lemma DefaultsLoad(toml: Value, args: Value)
    requires args.Node? && Field(toml, "grpc") == Undefined && !Field(args, "datadir").Node?
    requires !Field(toml, "datadir").Node? && !Field(args, "configpath").Node?
    ensures Load(HOME, DEFAULTS, toml, args).Some?
  {
    hide Merge, MergeField, Based;
    MergeKey(DEFAULTS, toml, "datadir");
    MergeFieldOfLeaf(Field(DEFAULTS, "datadir"), Field(toml, "datadir"));
    var dir := DataDir(HOME, Merge(DEFAULTS, toml), args).value;
    BasedKey(HOME, DEFAULTS, toml, dir, "grpc");
    MergeFieldOfLeaf(Field(DEFAULTS, "grpc"), Undefined);
  }

  /** A home-relative directory stays unresolved in the loaded tree, from the TOML file as from the command line. */
  lemma TildeIsStored()
    ensures var written := Only("datadir", Leaf(Text("~/x")));
            && DataDir(HOME, Merge(DEFAULTS, written), Node(map[])) == Some(Text("/home/x"))
            && Load(HOME, DEFAULTS, written, Node(map[])).Some?
            && Field(Load(HOME, DEFAULTS, written, Node(map[])).value, "datadir") == Leaf(Text("~/x"))
            && DataDir(HOME, Merge(DEFAULTS, Undefined), written) == Some(Text("/home/x"))
            && Load(HOME, DEFAULTS, Undefined, written).Some?
            && Field(Load(HOME, DEFAULTS, Undefined, written).value, "datadir") == Leaf(Text("~/x"))
  {
    hide Load, Merge;
    var written, none := Only("datadir", Leaf(Text("~/x"))), Node(map[]);
    assert "/home" + "~/x"[1..] == "/home/x";
    DefaultsLoad(written, none);
    DefaultsLoad(Undefined, written);
    LoadHasBefore(HOME, DEFAULTS, written, none);
    LoadHasBefore(HOME, DEFAULTS, Undefined, written);
    StoredDataDirIff(HOME, DEFAULTS, written, none);
    StoredDataDirIff(HOME, DEFAULTS, Undefined, written);
    ChosenDataDir(HOME, DEFAULTS, written, none);
    ChosenDataDir(HOME, DEFAULTS, Undefined, written);
  }

  lemma DefaultDir()
    ensures HOME.resolveHome(Text("~/.boltz")) == Text("/home/.boltz")
    ensures HOME.join(Text("/home/.boltz"), "boltz.db") == Text("/home/.boltz/boltz.db")
    ensures HOME.Valid()
  {
    assert "/home" + "~/.boltz"[1..] == "/home/.boltz";
    assert "/home/.boltz" + "/" + "boltz.db" == "/home/.boltz/boltz.db";
  }

  /** An empty data directory on the command line is stored, although the default one is used. */
  lemma EmptyDataDirIsStored()
    ensures var args := Only("datadir", Leaf(Text("")));
            && DataDir(HOME, Merge(DEFAULTS, Undefined), args) == Some(Text("/home/.boltz"))
            && Load(HOME, DEFAULTS, Undefined, args).Some?
            && Field(Load(HOME, DEFAULTS, Undefined, args).value, "datadir") == Leaf(Text(""))
            && Field(Load(HOME, DEFAULTS, Undefined, args).value, "dbpath") == Leaf(Text("/home/.boltz/boltz.db"))
  {
    hide Load, Merge, DataDir, Env.Valid;
    var args := Only("datadir", Leaf(Text("")));
    DefaultDir();
    DefaultsLoad(Undefined, args);
    LoadHasBefore(HOME, DEFAULTS, Undefined, args);
    ChosenDataDir(HOME, DEFAULTS, Undefined, args);
    StoredDataDirIff(HOME, DEFAULTS, Undefined, args);
    DefaultFiles(HOME, DEFAULTS, Undefined, args);
  }

  /** An object on the command line erases an empty path of the TOML file instead of yielding to it. */
  lemma ObjectErasesEmptyPath()
    ensures var toml, args := Only("dbpath", Leaf(Text(""))), Only("dbpath", Node(map[]));
            && Load(HOME, DEFAULTS, toml, args).Some?
            && Field(Load(HOME, DEFAULTS, toml, args).value, "dbpath") == Node(map[])
  {
    hide Load, BeforeArgs, Based, DataDir;
    var toml, args := Only("dbpath", Leaf(Text(""))), Only("dbpath", Node(map[]));
    DefaultsLoad(toml, args);
    LoadHasBefore(HOME, DEFAULTS, toml, args);
    BeforeArgsKey(HOME, DEFAULTS, toml, args, "dbpath");
    LoadKey(HOME, DEFAULTS, toml, args, "dbpath");
  }

  // Certificates

  /** The `grpc` section before the command line is merged. */
  lemma CertificatesBefore(env: Env, config: Value, toml: Value, args: Value)
    requires env.Valid() && config.Node? && BeforeArgs(env, config, toml, args).Some?
    ensures var section, fromToml := Field(config, "grpc"), Field(toml, "grpc");
            var wanted := Field(fromToml, "certificates");
            var before := Field(BeforeArgs(env, config, toml, args).value, "grpc");
            var default := Leaf(env.join(DataDir(env, Merge(config, toml), args).value, "certificates"));
            if section.Leaf? && Truthy(section) then before == section
            else
              && before.Node?
              && Field(before, "certificates")
                 == if wanted.Node? then MergeField(Field(section, "certificates"), wanted)
                    else Preferred(Undefined, wanted, default)
  {
    hide Based, Merge, MergeField, DataDir;
    var dir := DataDir(env, Merge(config, toml), args).value;
    var based := Based(env, config, toml, dir);
    BasedKey(env, config, toml, dir, "grpc");
    var section, fromToml := Field(config, "grpc"), Field(toml, "grpc");
    var default := Leaf(env.join(dir, "certificates"));
    if Truthy(Field(fromToml, "certificates")) {
      MergeKey(based, toml, "grpc");
      SectionTwice(section, fromToml);
      if !Field(fromToml, "certificates").Node? {
        MergeFieldOfLeaf(Field(section, "certificates"), Field(fromToml, "certificates"));
      }
    } else {
      var put := Put(based, "grpc", Put(Field(based, "grpc"), "certificates", default));
      MergeKey(put, toml, "grpc");
      SectionWithDefault(section, fromToml, default);
    }
  }

  /** A TOML section with its own certificates. */
  lemma SectionTwice(section: Value, fromToml: Value)
    requires Truthy(Field(fromToml, "certificates"))
    ensures var merged := MergeField(MergeField(section, fromToml), fromToml);
            if section.Leaf? && Truthy(section) then merged == section
            else
              && merged.Node?
              && Field(merged, "certificates")
                 == MergeField(Field(section, "certificates"), Field(fromToml, "certificates"))
  {
    MergeFieldTwice(section, fromToml);
    var base := if Truthy(section) then section else Node(map[]);
    if base.Node? {
      FieldOfMerge(base, fromToml, "certificates");
    }
  }

  /** A TOML section without, onto which the default is put first. */
  lemma SectionWithDefault(section: Value, fromToml: Value, default: Value)
    requires !Truthy(Field(fromToml, "certificates")) && MergeField(section, fromToml).Node?
    requires default.Leaf? && Truthy(default)
    ensures !(section.Leaf? && Truthy(section))
    ensures var merged := MergeField(Put(MergeField(section, fromToml), "certificates", default), fromToml);
            && merged.Node?
            && Field(merged, "certificates") == Preferred(Undefined, Field(fromToml, "certificates"), default)
  {
    var put := Put(MergeField(section, fromToml), "certificates", default);
    if fromToml.Node? {
      FieldOfMerge(put, fromToml, "certificates");
      LeafWins(default, Field(fromToml, "certificates"));
    }
  }

  /**
   The gRPC certificates are the command line's, else the TOML file's, else those in the data directory,
   exactly if no plain value stands for the whole section in the defaults or on the command line and, unless
   the command line names the certificates, the TOML file has no object for them (or one that the defaults
   shadow with that very directory) and the command line has no object where the TOML file has a falsy value.
   */
  lemma CertificatesPrecedenceIff(env: Env, config: Value, toml: Value, args: Value)
    requires env.Valid() && config.Node? && args.Node? && Load(env, config, toml, args).Some?
    ensures var section, given := Field(config, "grpc"), Field(Field(args, "grpc"), "certificates");
            var wanted := Field(Field(toml, "grpc"), "certificates");
            var default := Leaf(env.join(DataDir(env, Merge(config, toml), args).value, "certificates"));
            Field(Field(Load(env, config, toml, args).value, "grpc"), "certificates")
            == Preferred(given, wanted, default)
            <==> && !(section.Leaf? && Truthy(section))
                 && !Field(args, "grpc").Leaf?
                 && (given.Leaf?
                     || (&& (wanted.Node? ==> Field(section, "certificates") == default)
                         && !(given.Node? && wanted.Leaf? && !Truthy(wanted))))
  {
    hide Load, BeforeArgs, Based, Merge, MergeField, DataDir;
    LoadHasBefore(env, config, toml, args);
    BeforeArgsKey(env, config, toml, args, "grpc");
    CertificatesBefore(env, config, toml, args);
    LoadKey(env, config, toml, args, "grpc");
    var before := Field(BeforeArgs(env, config, toml, args).value, "grpc");
    var default := Leaf(env.join(DataDir(env, Merge(config, toml), args).value, "certificates"));
    ArgsSection(before, Field(args, "grpc"));
    if before.Node? {
      CertificateLayers(Field(Field(config, "grpc"), "certificates"), Field(Field(toml, "grpc"), "certificates"),
                        Field(Field(args, "grpc"), "certificates"), default);
    }
  }

  /** The command line's section on top. */
  lemma ArgsSection(before: Value, args: Value)
    requires Truthy(before)
    ensures Field(MergeField(before, args), "certificates")
         == if args.Leaf? || before.Leaf? then Undefined
            else MergeField(Field(before, "certificates"), Field(args, "certificates"))
  {
    if args.Node? && before.Node? {
      FieldOfMerge(before, args, "certificates");
    }
  }

  lemma CertificateLayers(configured: Value, wanted: Value, given: Value, default: Value)
    requires default.Leaf? && Truthy(default)
    ensures var before := if wanted.Node? then MergeField(configured, wanted)
                          else Preferred(Undefined, wanted, default);
            MergeField(before, given) == Preferred(given, wanted, default)
            <==> given.Leaf?
                 || (&& (wanted.Node? ==> configured == default)
                     && !(given.Node? && wanted.Leaf? && !Truthy(wanted)))
  {}
}
