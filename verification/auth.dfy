/** Parsing the client's authentication response. */
module Auth {
  import opened Octets
  import opened FieldCodec
  import opened WireOctets
  import opened Readers

  /** Panics: a field of the response makes the reader panic. */
  datatype Login = Login(user: Bytes, password: Bytes) | Invalid | Panics

  const LOGIN: Bytes := [76, 79, 71, 73, 78]
  const PASSWORD: Bytes := [80, 65, 83, 83, 87, 79, 82, 68]

  // ---------- AMQPLAIN ----------

  function Pick(name: Bytes, key: Bytes, v: Field, before: Bytes): Bytes {
    if key == name && v.Plain? && v.scalar.SStr? then v.scalar.str else before
  }

  function Decide(user: Bytes, password: Bytes): Login {
    if user == [] || password == [] then Invalid else Login(user, password)
  }

  /** The loop of ParseAMQPLAINAuthResponse from its variables on: any read error ends it. */
  function Scan(s: Bytes, user: Bytes, password: Bytes): Login
    decreases |s|
  {
    match ParseShort(s)
    case Fail(_, _) => Decide(user, password)
    case Ok(key, t) =>
      match ParseField(t)
      case Fail(e, _) => if e == Abort then Panics else Decide(user, password)
      case Ok(v, u) => Scan(u, Pick(LOGIN, key, v, user), Pick(PASSWORD, key, v, password))
  }

  /** ParseAMQPLAINAuthResponse: ends on every input. */
  method ParseAMQPLAIN(s: Bytes) returns (login: Login)
    ensures login == Scan(s, [], [])
    ensures login.Login? ==> login.user != [] && login.password != []
  {
    hide ParseShort;
    var b := new Source(s);
    var user, password: Bytes := [], [];
    while true
      invariant b.Valid() && fresh(b)
      invariant Scan(b.Rest(), user, password) == Scan(s, [], [])
      decreases |b.Rest()|
    {
      var k := b.ReadShort();
      if k.Error? {
        break;
      }
      var v := b.ReadField();
      if v.Error? {
        if v.err == Abort {
          return Panics;
        }
        break;
      }
      if k.val == LOGIN {
        if v.val.Plain? && v.val.scalar.SStr? {
          user := v.val.scalar.str;
        }
      }
      if k.val == PASSWORD {
        if v.val.Plain? && v.val.scalar.SStr? {
          password := v.val.scalar.str;
        }
      }
    }
    if user == [] || password == [] {
      return Invalid;
    }
    return Login(user, password);
  }

  /** The string written last under a name, or a default. */
  function LastString(es: seq<Entry>, name: Bytes, default: Bytes): Bytes {
    if es == [] then default
    else LastString(es[1..], name, Pick(name, Short(es[0].key), NormEntry(es[0]), default))
  }

  /** The entries a table writer puts out are read as the last LOGIN and the last PASSWORD string, and the loop
      goes on with what is behind them. */
  lemma {:induction false} ScanReadsEntries(es: seq<Entry>, more: Bytes, user: Bytes, password: Bytes)
    requires forall i :: 0 <= i < |es| ==> WellSizedEntry(es[i])
    ensures Scan(EncEntries(es) + more, user, password)
      == Scan(more, LastString(es, LOGIN, user), LastString(es, PASSWORD, password))
  {
    hide EncEntry; hide Short; hide EncField; hide NormEntry; hide ParseField; hide Decide; hide Pick;
    if es == [] {
      assert EncEntries(es) + more == more;
    } else {
      var rest := EncEntries(es[1..]) + more;
      assert EncEntries(es) + more == EncEntry(es[0]) + rest;
      EntryRoundTrip(es[0], rest);
      var key, v := Short(es[0].key), NormEntry(es[0]);
      ScanReadsEntries(es[1..], more, Pick(LOGIN, key, v, user), Pick(PASSWORD, key, v, password));
    }
  }

  /** No entry can be read from s: there is no whole key, or no value behind it. */
  predicate NoEntry(s: Bytes) {
    ParseShort(s).Fail? || (ParseField(ParseShort(s).rest).Fail? && ParseField(ParseShort(s).rest).err != Abort)
  }

  /** In particular at the end. */
  lemma NothingIsNoEntry()
    ensures NoEntry([])
  {
    assert ParseShort([]) == Fail(EOF, []);
  }

  /** name is written once, at position at, with the string value. */
  ghost predicate WrittenOnce(es: seq<Entry>, name: Bytes, at: nat, value: Bytes) {
    && at < |es| && Short(es[at].key) == name && es[at].val == LPlain(SStr(value))
    && forall j :: 0 <= j < |es| && j != at ==> Short(es[j].key) != name
  }

  lemma {:induction false} LastStringAbsent(es: seq<Entry>, name: Bytes, default: Bytes)
    requires forall j :: 0 <= j < |es| ==> Short(es[j].key) != name
    ensures LastString(es, name, default) == default
  {
    if es != [] {
      assert forall j :: 0 <= j < |es[1..]| ==> es[1..][j] == es[j + 1];
      LastStringAbsent(es[1..], name, default);
    }
  }

  lemma {:induction false} LastStringOnce(es: seq<Entry>, name: Bytes, at: nat, value: Bytes, default: Bytes)
    requires WrittenOnce(es, name, at, value)
    ensures LastString(es, name, default) == value
  {
    hide Short;
    assert forall j :: 0 <= j < |es[1..]| ==> es[1..][j] == es[j + 1];
    if at == 0 {
      assert NormLayout(es[0].val) == Plain(SStr(value));
      assert NormEntry(es[0]) == Plain(SStr(value));
      LastStringAbsent(es[1..], name, value);
    } else {
      LastStringOnce(es[1..], name, at - 1, value, default);
    }
  }

  /** Entries in any order, with any others between and anything but an entry behind: a LOGIN and a PASSWORD
      string, each written once and not empty, are read back. */
  lemma LoginRoundTrip(es: seq<Entry>, atLogin: nat, user: Bytes, atPassword: nat, password: Bytes, more: Bytes)
    requires forall i :: 0 <= i < |es| ==> WellSizedEntry(es[i])
    requires WrittenOnce(es, LOGIN, atLogin, user) && WrittenOnce(es, PASSWORD, atPassword, password)
    requires user != [] && password != [] && NoEntry(more)
    ensures Scan(EncEntries(es) + more, [], []) == Login(user, password)
  {
    hide Short; hide ParseShort; hide ParseField; hide WrittenOnce;
    ScanReadsEntries(es, more, [], []);
    LastStringOnce(es, LOGIN, atLogin, user, []);
    LastStringOnce(es, PASSWORD, atPassword, password, []);
  }

  // The octets of "LOGIN" and "PASSWORD" behind their lengths, each followed by the type of a string.
  const LOGIN_ENTRY: Bytes := [5, 76, 79, 71, 73, 78, 0x53]
  const PASSWORD_ENTRY: Bytes := [8, 80, 65, 83, 83, 87, 79, 82, 68, 0x53]

  /** c is s's length in four octets, as a reader takes it. */
  predicate Counts(c: Bytes, s: Bytes) {
    |c| == 4 && BigEndian(c) == |s| < 0x8000_0000
  }

  lemma LoginEntry(c: Bytes, s: Bytes)
    requires Counts(c, s)
    ensures EncEntry(Entry(LOGIN, LPlain(SStr(s)))) == LOGIN_ENTRY + c + s
  {
    hide BigEndian; hide EncEntry;
    var b, v := LOGIN_ENTRY + c + s, [0x53] + c + s;
    assert b == [5, 76, 79, 71, 73, 78] + v;
    assert b[6..] == v && v[1..5] == c && v[5..] == s;
    EntryOctetsIff(Entry(LOGIN, LPlain(SStr(s))), b);
  }

  lemma PasswordEntry(c: Bytes, s: Bytes)
    requires Counts(c, s)
    ensures EncEntry(Entry(PASSWORD, LPlain(SStr(s)))) == PASSWORD_ENTRY + c + s
  {
    hide BigEndian; hide EncEntry;
    var b, v := PASSWORD_ENTRY + c + s, [0x53] + c + s;
    assert b == [8, 80, 65, 83, 83, 87, 79, 82, 68] + v;
    assert b[9..] == v && v[1..5] == c && v[5..] == s;
    EntryOctetsIff(Entry(PASSWORD, LPlain(SStr(s))), b);
  }

  lemma TwoEntries(a: Entry, b: Entry)
    ensures EncEntries([a, b]) == EncEntry(a) + EncEntry(b)
  {
    hide EncEntry;
    assert [a, b][1..] == [b] && [b][1..] == [] && EncEntries([]) == [];
    assert EncEntries([b]) == EncEntry(b);
  }

  /** Octet for octet: a user behind LOGIN and a password behind PASSWORD, in either order and with anything but
      an entry behind, are the login, whatever their octets; when one of them is empty there is none. */
  lemma LiteralLogin(cu: Bytes, user: Bytes, cp: Bytes, password: Bytes, more: Bytes)
    requires Counts(cu, user) && Counts(cp, password) && NoEntry(more)
    ensures var u, p := LOGIN_ENTRY + cu + user, PASSWORD_ENTRY + cp + password;
      var login := if user == [] || password == [] then Invalid else Login(user, password);
      Scan(u + p + more, [], []) == login && Scan(p + u + more, [], []) == login
  {
    hide BigEndian; hide EncEntry; hide EncEntries; hide ParseShort; hide ParseField;
    var a, b := Entry(LOGIN, LPlain(SStr(user))), Entry(PASSWORD, LPlain(SStr(password)));
    LoginEntry(cu, user);
    PasswordEntry(cp, password);
    TwoEntries(a, b);
    TwoEntries(b, a);
    assert WrittenOnce([a, b], LOGIN, 0, user) && WrittenOnce([a, b], PASSWORD, 1, password);
    assert WrittenOnce([b, a], LOGIN, 1, user) && WrittenOnce([b, a], PASSWORD, 0, password);
    LastStringOnce([a, b], LOGIN, 0, user, []);
    LastStringOnce([a, b], PASSWORD, 1, password, []);
    LastStringOnce([b, a], LOGIN, 1, user, []);
    LastStringOnce([b, a], PASSWORD, 0, password, []);
    ScanReadsEntries([a, b], more, [], []);
    ScanReadsEntries([b, a], more, [], []);
  }

  // ---------- PLAIN ----------

  /** The position of the first zero octet, or the length. */
  function FirstZero(s: Bytes): (n: nat)
    ensures n <= |s| && (n < |s| ==> s[n] == 0) && 0 !in s[..n]
  {
    if s == [] || s[0] == 0 then 0
    else
      var n := 1 + FirstZero(s[1..]);
      assert s[..n] == [s[0]] + s[1..][..n - 1];
      n
  }

  /** ParsePLAINAuthResponse: strings.SplitN at zero octets into at most three parts. */
  function ParsePLAIN(s: Bytes): Login {
    var i := FirstZero(s);
    if i == |s| then Invalid
    else
      var t := s[i + 1..];
      var j := FirstZero(t);
      if j == |t| then Invalid else Login(t[..j], t[j + 1..])
  }

  function PlainResponse(authzid: Bytes, user: Bytes, password: Bytes): Bytes {
    authzid + ([0] + (user + ([0] + password)))
  }

  lemma PlainReads(authzid: Bytes, user: Bytes, password: Bytes)
    requires 0 !in authzid && 0 !in user
    ensures ParsePLAIN(PlainResponse(authzid, user, password)) == Login(user, password)
  {
    var t := user + ([0] + password);
    var s := authzid + ([0] + t);
    FirstZeroAfter(authzid, t);
    FirstZeroAfter(user, password);
    assert s[|authzid| + 1..] == t;
    assert t[..|user|] == user && t[|user| + 1..] == password;
  }

  lemma PlainForm(s: Bytes)
    requires ParsePLAIN(s).Login?
    ensures var l := ParsePLAIN(s); var authzid := s[..FirstZero(s)];
      0 !in l.user && 0 !in authzid && s == PlainResponse(authzid, l.user, l.password)
  {
    hide FirstZero;
    var i := FirstZero(s);
    var t := s[i + 1..];
    CutAtZero(s, i);
    CutAtZero(t, FirstZero(t));
  }

  lemma CutAtZero(s: Bytes, i: nat)
    requires i < |s| && s[i] == 0
    ensures s == s[..i] + ([0] + s[i + 1..])
  {
    assert [0] + s[i + 1..] == s[i..];
  }

  /** A response is an authorization identity, a user and a password separated by zero octets, of which
      only the password may contain more: it parses to user and password exactly when it has this form. */
  lemma PlainExact(s: Bytes, user: Bytes, password: Bytes)
    ensures ParsePLAIN(s) == Login(user, password) <==>
      0 !in user && exists authzid: Bytes :: 0 !in authzid && s == PlainResponse(authzid, user, password)
  {
    hide PlainResponse; hide ParsePLAIN;
    if ParsePLAIN(s) == Login(user, password) {
      PlainForm(s);
    }
    if 0 !in user && exists authzid: Bytes :: 0 !in authzid && s == PlainResponse(authzid, user, password) {
      var authzid: Bytes :| 0 !in authzid && s == PlainResponse(authzid, user, password);
      PlainReads(authzid, user, password);
    }
  }

  lemma {:induction false} FirstZeroAfter(a: Bytes, b: Bytes)
    requires 0 !in a
    ensures FirstZero(a + ([0] + b)) == |a|
  {
    if a != [] {
      assert (a + ([0] + b))[1..] == a[1..] + ([0] + b);
      FirstZeroAfter(a[1..], b);
    }
  }
}
