/*
 * The MySQL settings window (Setting.py): the connection settings read
 * from the widgets, the check that host, database and user name are
 * filled in, the guarded test and save, and the reload of the stored
 * settings into the widgets.  The settings store is a map from key to
 * value; the database connection is a parameter.
 */
module Setting {
  import opened Wrappers
  import opened Seqs
  import opened Text

  /** The items of the system combo box, in order. */
  const Systems: seq<string> := ["jhcis", "hosxp"]

  const MinPort := 1
  const MaxPort := 65535
  const MinTimeout := 1
  const MaxTimeout := 120

  /** The widgets' contents: line-edit texts, spin-box values and the combo's current index. */
  datatype Form = Form(host: string, port: int, database: string, user: string, password: string,
                       timeout: int, systemIndex: nat)

  /** The spin boxes stay within their ranges and the combo on one of its items. */
  predicate InRange(f: Form)
  {
    MinPort <= f.port <= MaxPort && MinTimeout <= f.timeout <= MaxTimeout && f.systemIndex < |Systems|
  }

  /** The connection settings of `get_config`. */
  datatype Config = Config(host: string, port: int, database: string, user: string, password: string,
                           connectTimeout: int, charset: string, system: string)

  /** `get_config`. */
  function GetConfig(f: Form): (c: Config)
    requires InRange(f)
  {
    Config(Strip(f.host), f.port, Strip(f.database), Strip(f.user), f.password, f.timeout,
           "utf8mb4", Systems[f.systemIndex])
  }

  /**
   * Host, database and user name come without surrounding whitespace and
   * otherwise as typed; the password is kept verbatim; the other
   * settings are the widgets' values, the charset is always utf8mb4.
   */
  lemma GetConfigStrips(f: Form)
    requires InRange(f)
    ensures var c := GetConfig(f);
      Strip(c.host) == c.host && Strip(c.database) == c.database && Strip(c.user) == c.user &&
      c.password == f.password && c.port == f.port && c.connectTimeout == f.timeout &&
      c.charset == "utf8mb4" && c.system in Systems
  {
    StripStripped(f.host);
    StripStripped(f.database);
    StripStripped(f.user);
  }

  /** The required fields, named by the labels the warning uses. */
  datatype Field = Host | Database | Username

  function Label(x: Field): string
  {
    match x
    case Host => "Host"
    case Database => "Database"
    case Username => "Username"
  }

  /** The required fields in the order they are checked. */
  const Required: seq<Field> := [Host, Database, Username]

  /** The text of a required field's line edit. */
  function FieldText(f: Form, x: Field): string
  {
    match x
    case Host => f.host
    case Database => f.database
    case Username => f.user
  }

  /** Whether a required field's stripped text is empty. */
  function IsBlankIn(f: Form): Field -> bool
  {
    (x: Field) => Strip(FieldText(f, x)) == ""
  }

  /** The required fields whose stripped text is empty, in check order. */
  function Missing(f: Form): seq<Field>
  {
    (if Strip(f.host) == "" then [Host] else []) +
    (if Strip(f.database) == "" then [Database] else []) +
    (if Strip(f.user) == "" then [Username] else [])
  }

  /** A field is reported exactly when its text is blank. */
  lemma MissingFields(f: Form)
    ensures Host in Missing(f) <==> Strip(f.host) == ""
    ensures Database in Missing(f) <==> Strip(f.database) == ""
    ensures Username in Missing(f) <==> Strip(f.user) == ""
  {
    var h: seq<Field> := if Strip(f.host) == "" then [Host] else [];
    var d: seq<Field> := if Strip(f.database) == "" then [Database] else [];
    var u: seq<Field> := if Strip(f.user) == "" then [Username] else [];
    assert Missing(f) == h + d + u;
    assert forall x :: x in h + d + u <==> x in h || x in d || x in u;
  }

  /** The reported fields are the required fields that are blank, kept in the order of the checks. */
  lemma MissingIsFilter(f: Form)
    ensures Missing(f) == Filter(Required, IsBlankIn(f))
  {
    FilterThree(Host, Database, Username, IsBlankIn(f));
  }

  /** Filtering a three-element sequence keeps the passing elements in order. */
  lemma FilterThree<T>(a: T, b: T, c: T, keep: T -> bool)
    ensures Filter([a, b, c], keep) ==
      (if keep(a) then [a] else []) + (if keep(b) then [b] else []) + (if keep(c) then [c] else [])
  {
    var s3 := [a, b, c];
    assert s3[..|s3| - 1] == [a, b];
    assert Filter(s3, keep) == Filter([a, b], keep) + (if keep(c) then [c] else []);
    var s2 := [a, b];
    assert s2[..|s2| - 1] == [a];
    assert Filter(s2, keep) == Filter([a], keep) + (if keep(b) then [b] else []);
    var s1 := [a];
    assert s1[..|s1| - 1] == [];
    assert Filter(s1, keep) == Filter([], keep) + (if keep(a) then [a] else []);
  }

  /** The warning listing the missing fields. */
  function MissingWarning(missing: seq<Field>): string
  {
    "กรุณากรอก: " + Join(", ", seq(|missing|, i requires 0 <= i < |missing| => Label(missing[i])))
  }

  /** `validate_required`: the missing fields, collected in check order, and whether there are none. */
  method ValidateRequired(f: Form) returns (ok: bool, missing: seq<Field>)
    ensures missing == Missing(f)
    ensures ok <==> missing == []
  {
    ghost var host := if Strip(f.host) == "" then [Host] else [];
    ghost var database := if Strip(f.database) == "" then [Database] else [];
    missing := [];
    if Strip(f.host) == "" {
      missing := missing + [Host];
    }
    assert missing == host;
    if Strip(f.database) == "" {
      missing := missing + [Database];
    }
    assert missing == host + database;
    if Strip(f.user) == "" {
      missing := missing + [Username];
    }
    ok := missing == [];
  }

  /** The form passes `validate_required` exactly when none of host, database and user name is blank. */
  lemma ValidIff(f: Form)
    ensures Missing(f) == [] <==> Strip(f.host) != "" && Strip(f.database) != "" && Strip(f.user) != ""
  {
    MissingFields(f);
  }

  /** A stored setting: text, or a number as the settings backend may hand it back. */
  datatype Value = Str(s: string) | Num(n: int)

  /** The keys `save_settings` writes. */
  const SettingKeys: set<string> := {"host", "port", "database", "user", "password", "timeout", "system"}

  /** What `save_settings` writes for a configuration. */
  function Saved(c: Config): (m: map<string, Value>)
    ensures m.Keys == SettingKeys
  {
    map["host" := Str(c.host), "port" := Num(c.port), "database" := Str(c.database),
        "user" := Str(c.user), "password" := Str(c.password), "timeout" := Num(c.connectTimeout),
        "system" := Str(c.system)]
  }

  /** Python's `int()` of a stored value: a number as is; text of optional sign and digits, surrounding whitespace ignored. */
  function IntValue(v: Value): (r: Option<int>)
    ensures v.Num? ==> r == Some(v.n)
    ensures v.Str? && r.Some? ==> |Strip(v.s)| > 0
  {
    match v
    case Num(n) => Some(n)
    case Str(s) =>
      var t := Strip(s);
      if |t| > 0 && AllDigits(t) then Some(ParseNat(t))
      else if |t| > 1 && (t[0] == '-' || t[0] == '+') && AllDigits(t[1..]) then
        (if t[0] == '-' then Some(0 - ParseNat(t[1..])) else Some(ParseNat(t[1..])))
      else None
  }

  /** The decimal text of a number is read back as that number. */
  lemma IntValueDecimal(i: int)
    ensures IntValue(Str(IntToDecimal(i))) == Some(i)
  {
    var d := IntToDecimal(i);
    IntToDecimalRoundTrip(i);
    StripDecimal(d);
  }

  /** A decimal numeral has no surrounding whitespace. */
  lemma StripDecimal(d: string)
    requires |d| > 0 && ((d[0] == '-' && AllDigits(d[1..])) || AllDigits(d))
    ensures Strip(d) == d
  {
    assert !IsSpace(d[|d| - 1]) by {
      if !AllDigits(d) && |d| > 1 {
        assert d[1..][|d| - 2] == d[|d| - 1];
      }
    }
    assert RStrip(d) == d;
    assert !IsSpace(d[0]);
  }

  /** The text of a stored text setting; a number is not text (`setText` refuses it). */
  function TextValue(v: Value): Option<string>
  {
    if v.Str? then Some(v.s) else None
  }

  /** `QSpinBox.setValue`: a value outside the range is clamped to it. */
  function Clamp(x: int, lo: int, hi: int): (r: int)
    requires lo <= hi
    ensures lo <= r <= hi
    ensures lo <= x <= hi ==> r == x
  {
    if x < lo then lo else if x > hi then hi else x
  }

  /** `findText` falling back to index 0: the index of a known system, 0 for any other. */
  function SystemIndex(system: string): (r: nat)
    ensures r < |Systems|
    ensures system in Systems ==> Systems[r] == system
    ensures system !in Systems ==> r == 0
  {
    if system == Systems[0] then 0 else if system == Systems[1] then 1 else 0
  }

  /** `settings.value(key, default)`. */
  function Get(store: map<string, Value>, key: string, default: Value): Value
  {
    if key in store then store[key] else default
  }

  /**
   * `load_settings`: the form the stored settings give, or None when a
   * stored number or text cannot be read (the source then shows an error).
   */
  function Load(store: map<string, Value>): (r: Option<Form>)
    ensures r.Some? ==> InRange(r.value)
  {
    var host := TextValue(Get(store, "host", Str("localhost")));
    var port := IntValue(Get(store, "port", Num(3306)));
    var database := TextValue(Get(store, "database", Str("")));
    var user := TextValue(Get(store, "user", Str("")));
    var password := TextValue(Get(store, "password", Str("")));
    var timeout := IntValue(Get(store, "timeout", Num(10)));
    var system := TextValue(Get(store, "system", Str("jhcis")));
    if host.None? || port.None? || database.None? || user.None? || password.None? ||
       timeout.None? || system.None?
    then None
    else
      Some(Form(host.value, Clamp(port.value, MinPort, MaxPort), database.value, user.value,
                password.value, Clamp(timeout.value, MinTimeout, MaxTimeout), SystemIndex(system.value)))
  }

  /** An empty store loads the defaults: localhost, port 3306, timeout 10 and the first system. */
  lemma LoadDefaults()
    ensures Load(map[]) == Some(Form("localhost", 3306, "", "", "", 10, 0))
  {
  }

  /** A stored system name that is not one of the combo's items selects the first item. */
  lemma LoadUnknownSystem(store: map<string, Value>, name: string)
    requires "system" in store && store["system"] == Str(name) && name !in Systems
    requires Load(store).Some?
    ensures Load(store).value.systemIndex == 0
  {
  }

  /**
   * Saving then loading gives back the form, with host, database and
   * user name stripped: every saved key is read back as written.
   */
  lemma LoadAfterSave(store: map<string, Value>, f: Form)
    requires InRange(f)
    ensures Load(store + Saved(GetConfig(f))) ==
      Some(f.(host := Strip(f.host), database := Strip(f.database), user := Strip(f.user)))
  {
    var s := store + Saved(GetConfig(f));
    assert Get(s, "system", Str("jhcis")) == Str(Systems[f.systemIndex]);
    assert SystemIndex(Systems[f.systemIndex]) == f.systemIndex;
  }

  /** What the test button shows. */
  datatype TestOutcome = MissingFieldsWarned(message: string) | Connected(version: string) | ConnectFailed(error: string)

  /** The server's answer to `SELECT VERSION()` over a connection with the settings, or an error text. */
  datatype Reply = Version(v: string) | Error(e: string)

  /** The settings window: its widgets, the settings store, and whether it is open. */
  class SettingsWindow {
    var form: Form
    var store: map<string, Value>
    var open: bool

    ghost predicate Valid()
      reads this
    {
      InRange(form)
    }

    /** The window over widgets already filled in and the store they came from. */
    constructor(initial: Form, stored: map<string, Value>)
      requires InRange(initial)
      ensures Valid() && form == initial && store == stored && open
    {
      form := initial;
      store := stored;
      open := true;
    }

    /** `test_connection`: nothing is attempted until the required fields are filled in. */
    method TestConnection(connect: Config -> Reply) returns (o: TestOutcome)
      requires Valid()
      ensures Missing(form) != [] ==> o == MissingFieldsWarned(MissingWarning(Missing(form)))
      ensures Missing(form) == [] ==>
        o == match connect(GetConfig(form))
             case Version(v) => Connected(v)
             case Error(e) => ConnectFailed(e)
    {
      var ok, missing := ValidateRequired(form);
      if !ok {
        return MissingFieldsWarned(MissingWarning(missing));
      }
      var reply := connect(GetConfig(form));
      match reply
      case Version(v) => o := Connected(v);
      case Error(e) => o := ConnectFailed(e);
    }

    /**
     * `save_settings`: with a required field missing, the store is left
     * alone and the window stays open; otherwise the seven keys are
     * written from the configuration and the window closes.
     */
    method SaveSettings() returns (warning: Option<string>)
      requires Valid()
      modifies this
      ensures Valid() && form == old(form)
      ensures Missing(form) != [] ==>
        warning == Some(MissingWarning(Missing(form))) && store == old(store) && open == old(open)
      ensures Missing(form) == [] ==>
        warning.None? && store == old(store) + Saved(GetConfig(form)) && !open
    {
      var ok, missing := ValidateRequired(form);
      if !ok {
        return Some(MissingWarning(missing));
      }
      store, open, warning := store + Saved(GetConfig(form)), false, None;
    }

    /** `load_settings`: the widgets take the stored settings; an unreadable setting leaves them as they were. */
    method LoadSettings() returns (loaded: bool)
      requires Valid()
      modifies this
      ensures Valid() && store == old(store) && open == old(open)
      ensures loaded <==> Load(store).Some?
      ensures loaded ==> form == Load(store).value
      ensures !loaded ==> form == old(form)
    {
      var r := Load(store);
      if r.Some? {
        form := r.value;
      }
      loaded := r.Some?;
    }
  }

  /** A save that went through, followed by a load, leaves the widgets as saved with the texts stripped. */
  lemma SaveLoadRoundTrip(store: map<string, Value>, f: Form)
    requires InRange(f) && Missing(f) == []
    ensures Load(store + Saved(GetConfig(f))).Some?
    ensures var g := Load(store + Saved(GetConfig(f))).value;
      g.port == f.port && g.timeout == f.timeout && g.systemIndex == f.systemIndex &&
      g.password == f.password && g.host == Strip(f.host) && Missing(g) == []
  {
    LoadAfterSave(store, f);
    var g := Load(store + Saved(GetConfig(f))).value;
    StripStripped(f.host);
    StripStripped(f.database);
    StripStripped(f.user);
    ValidIff(f);
    ValidIff(g);
  }
}
