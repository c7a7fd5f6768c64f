/** The text formats on the wire, and the loops that take them apart. Fields are
    separated by '#'. */
module Wire {
  import opened Options

  /** The address of a cache server. */
  datatype Addr = Addr(ip: string, port: string)

  const HASH: char := '#'

  predicate Clean(field: string) {
    HASH !in field
  }

  /** What a field must be for the tokenizer to give it back. */
  predicate Solid(field: string) {
    field != "" && Clean(field)
  }

  predicate CleanAddr(a: Addr) {
    Clean(a.ip) && Clean(a.port)
  }

  // ---------- printing ----------

  function Sep(first: string, rest: string): string {
    first + "#" + rest
  }

  /** Fields with a '#' between any two. */
  function Join(fields: seq<string>): string {
    if fields == [] then ""
    else if |fields| == 1 then fields[0]
    else Sep(fields[0], Join(fields[1..]))
  }

  function AddrText(a: Addr): string {
    Sep(a.ip, a.port)
  }

  function AddrTexts(addrs: seq<Addr>): seq<string> {
    if addrs == [] then [] else [AddrText(addrs[0])] + AddrTexts(addrs[1..])
  }

  function Heartbeat(ip: string, clientPort: string, cachePort: string, role: string): string {
    "x#" + ip + "#" + clientPort + "#" + cachePort + "#" + role
  }

  // ---------- the tokenizer ----------

  function SkipSeparators(s: string, separators: string): (r: string)
    ensures |r| <= |s|
    ensures r != "" ==> r[0] !in separators
  {
    if s == "" || s[0] !in separators then s else SkipSeparators(s[1..], separators)
  }

  function TokenLength(s: string, separators: string): (n: nat)
    ensures n <= |s|
  {
    if s == "" || s[0] in separators then 0 else 1 + TokenLength(s[1..], separators)
  }

  /** The maximal runs of characters that are not separators. */
  function Tokens(s: string, separators: string): seq<string>
    decreases |s|
  {
    var t := SkipSeparators(s, separators);
    if t == "" then []
    else
      var n := TokenLength(t, separators);
      [t[..n]] + Tokens(t[n..], separators)
  }

  method IsSeparator(c: char, separators: string) returns (found: bool)
    ensures found <==> c in separators
  {
    found := false;
    var x := 0;
    while x < |separators|
      invariant 0 <= x <= |separators|
      invariant !found && c !in separators[..x]
    {
      if c == separators[x] {
        return true;
      }
      x := x + 1;
    }
  }

  /** The first loop of the tokenizer: past the separators. */
  method SkipFrom(s: string, start: nat, separators: string) returns (i: nat)
    requires start <= |s|
    ensures start <= i <= |s| && s[i..] == SkipSeparators(s[start..], separators)
  {
    i := start;
    var flag := false;
    while i != |s| && !flag
      invariant start <= i <= |s|
      invariant SkipSeparators(s[i..], separators) == SkipSeparators(s[start..], separators)
      invariant flag ==> i < |s| && s[i] !in separators
      decreases |s| - i, !flag
    {
      flag := true;
      var found := IsSeparator(s[i], separators);
      if found {
        i := i + 1;
        flag := false;
      }
    }
  }

  /** The second loop of the tokenizer: up to the next separator. */
  method TokenEnd(s: string, i: nat, separators: string) returns (j: nat)
    requires i <= |s|
    ensures i <= j <= |s| && j - i == TokenLength(s[i..], separators)
  {
    j := i;
    var flag := false;
    while j != |s| && !flag
      invariant i <= j <= |s|
      invariant TokenLength(s[i..], separators) == j - i + TokenLength(s[j..], separators)
      invariant flag ==> j < |s| && s[j] in separators
      decreases |s| - j, !flag
    {
      flag := IsSeparator(s[j], separators);
      if !flag {
        j := j + 1;
      }
    }
  }

  /** The master's tokenizer: it terminates on every input and returns the tokens. */
  method Split(s: string, separators: string) returns (result: seq<string>)
    ensures result == Tokens(s, separators)
  {
    result := [];
    var i := 0;
    while i != |s|
      invariant 0 <= i <= |s|
      invariant result + Tokens(s[i..], separators) == Tokens(s, separators)
      decreases |s| - i
    {
      ghost var start := i;
      i := SkipFrom(s, i, separators);
      var j := TokenEnd(s, i, separators);
      ghost var t := s[i..];
      if i != j {
        assert s[i..j] == t[..j - i] && s[j..] == t[j - i..];
        assert Tokens(s[start..], separators) == [s[i..j]] + Tokens(s[j..], separators);
        result := result + [s[i..j]];
        i := j;
      } else {
        assert t == "";
      }
    }
  }

  lemma {:induction false} TokenIsClean(s: string)
    ensures Clean(s[..TokenLength(s, "#")])
  {
    if s == "" {
    } else if s[0] != HASH {
      TokenIsClean(s[1..]);
      assert s[..TokenLength(s, "#")] == [s[0]] + s[1..][..TokenLength(s[1..], "#")];
    }
  }

  lemma {:induction false} TokensAreClean(s: string)
    ensures forall t :: t in Tokens(s, "#") ==> Solid(t)
    decreases |s|
  {
    var t := SkipSeparators(s, "#");
    if t == "" {
    } else {
      var n := TokenLength(t, "#");
      TokenIsClean(t);
      TokensAreClean(t[n..]);
    }
  }

  lemma {:induction false} TokenStopsAtHash(field: string, rest: string)
    requires Clean(field) && (rest == "" || rest[0] == HASH)
    ensures TokenLength(field + rest, "#") == |field|
  {
    if field == "" {
      assert field + rest == rest;
    } else {
      assert (field + rest)[1..] == field[1..] + rest;
      TokenStopsAtHash(field[1..], rest);
    }
  }

  lemma TokensOfSolid(field: string)
    requires Solid(field)
    ensures Tokens(field, "#") == [field]
  {
    assert field[0] in field;
    TokenStopsAtHash(field, "");
    assert field + "" == field;
    assert Tokens("", "#") == [];
  }

  lemma TokensAfterSep(first: string, rest: string)
    requires Solid(first)
    ensures Tokens(Sep(first, rest), "#") == [first] + Tokens(rest, "#")
  {
    var s := Sep(first, rest);
    assert first[0] in first;
    assert s == first + ("#" + rest);
    TokenStopsAtHash(first, "#" + rest);
    assert s[..|first|] == first && s[|first|..] == "#" + rest;
    assert SkipSeparators(s, "#") == s;
    assert ("#" + rest)[1..] == rest;
    assert Tokens("#" + rest, "#") == Tokens(rest, "#");
  }

  lemma TokensOfNothing()
    ensures Tokens("", "#") == []
  {
  }

  lemma {:induction false} TokensOfJoin(fields: seq<string>)
    requires forall f :: f in fields ==> Solid(f)
    ensures Tokens(Join(fields), "#") == fields
    decreases |fields|
  {
    hide Sep, Tokens, Solid;
    if fields == [] {
      TokensOfNothing();
    } else {
      assert fields[0] in fields;
      if |fields| == 1 {
        TokensOfSolid(fields[0]);
      } else {
        assert forall f :: f in fields[1..] ==> f in fields;
        TokensOfJoin(fields[1..]);
        TokensAfterSep(fields[0], Join(fields[1..]));
      }
    }
  }

  /** The tokenizer inverts the printer exactly on non-empty '#'-free fields. */
  lemma SplitInvertsJoinIff(fields: seq<string>)
    ensures Tokens(Join(fields), "#") == fields <==> forall f :: f in fields ==> Solid(f)
  {
    TokensAreClean(Join(fields));
    if forall f :: f in fields ==> Solid(f) {
      TokensOfJoin(fields);
    }
  }

  /** A heartbeat comes apart into the fields it was made of. */
  lemma HeartbeatRoundTrip(ip: string, clientPort: string, cachePort: string, role: string)
    ensures Tokens(Heartbeat(ip, clientPort, cachePort, role), "#") == ["x", ip, clientPort, cachePort, role] <==>
            Solid(ip) && Solid(clientPort) && Solid(cachePort) && Solid(role)
  {
    var fields := ["x", ip, clientPort, cachePort, role];
    assert [cachePort, role][1..] == [role];
    assert [clientPort, cachePort, role][1..] == [cachePort, role];
    assert [ip, clientPort, cachePort, role][1..] == [clientPort, cachePort, role];
    assert fields[1..] == [ip, clientPort, cachePort, role];
    assert Join([cachePort, role]) == Sep(cachePort, role);
    assert Join([clientPort, cachePort, role]) == Sep(clientPort, Sep(cachePort, role));
    assert Join([ip, clientPort, cachePort, role]) == Sep(ip, Sep(clientPort, Sep(cachePort, role)));
    assert Join(fields) == Sep("x", Join([ip, clientPort, cachePort, role]));
    assert Join(fields) == Heartbeat(ip, clientPort, cachePort, role);
    SplitInvertsJoinIff(fields);
    assert Solid("x");
    assert ip == fields[1] && clientPort == fields[2] && cachePort == fields[3] && role == fields[4];
  }

  // ---------- key#value ----------

  /** Where the first '#' is; the length when there is none. */
  function FirstHash(s: string): (n: nat)
    ensures n <= |s| && (n < |s| ==> s[n] == HASH)
  {
    if s == "" || s[0] == HASH then 0 else 1 + FirstHash(s[1..])
  }

  /** The parts before and after the first '#'. None is the exception a substring
      past the end throws when there is no '#'. */
  function Slice(message: string): Option<(string, string)> {
    var n := FirstHash(message);
    if n == |message| then None else Some((message[..n], message[n + 1..]))
  }

  method SliceMessage(message: string) returns (r: Option<(string, string)>)
    ensures r == Slice(message)
  {
    var spear := 0;
    while spear != |message| && message[spear] != HASH
      invariant 0 <= spear <= |message|
      invariant FirstHash(message) == spear + FirstHash(message[spear..])
    {
      spear := spear + 1;
    }
    if spear == |message| {
      return None;
    }
    return Some((message[..spear], message[spear + 1..]));
  }

  lemma {:induction false} FirstHashSkipsClean(key: string, rest: string)
    ensures Clean(key) ==> FirstHash(key + rest) == |key| + FirstHash(rest)
    ensures !Clean(key) ==> FirstHash(key + rest) < |key|
  {
    if key == "" {
      assert key + rest == rest;
    } else {
      assert (key + rest)[1..] == key[1..] + rest;
      FirstHashSkipsClean(key[1..], rest);
    }
  }

  lemma {:induction false} CleanHasNoHash(key: string)
    ensures Slice(key).None? <==> Clean(key)
  {
    assert key + "" == key;
    FirstHashSkipsClean(key, "");
  }

  /** Slicing inverts key#value exactly for '#'-free keys, whatever the value. */
  lemma SliceInvertsIff(key: string, val: string)
    ensures Slice(Sep(key, val)) == Some((key, val)) <==> Clean(key)
  {
    var m := Sep(key, val);
    assert m == key + ("#" + val);
    FirstHashSkipsClean(key, "#" + val);
    if Clean(key) {
      assert m[..|key|] == key && m[|key| + 1..] == val;
    }
  }

  // ---------- the initial list ----------

  /** Every field between two '#', empty ones included. */
  function Fields(s: string): (fields: seq<string>)
    ensures fields != []
    decreases |s|
  {
    var n := FirstHash(s);
    if n == |s| then [s] else [s[..n]] + Fields(s[n + 1..])
  }

  function Pairs(fields: seq<string>): seq<Addr>
    requires |fields| % 2 == 0
  {
    if fields == [] then [] else [Addr(fields[0], fields[1])] + Pairs(fields[2..])
  }

  /** What the initial message says; None when addresses and ports do not match up. */
  function ParseInit(s: string): Option<seq<Addr>> {
    if |Fields(s)| % 2 == 0 then Some(Pairs(Fields(s))) else None
  }

  function Evens(fields: seq<string>): seq<string> {
    if fields == [] then [] else [fields[0]] + Odds(fields[1..])
  }

  function Odds(fields: seq<string>): seq<string> {
    if fields == [] then [] else Evens(fields[1..])
  }

  lemma {:induction false} EvensAndOdds(fields: seq<string>, last: string)
    ensures |Evens(fields)| == (|fields| + 1) / 2 && |Odds(fields)| == |fields| / 2
    ensures |fields| % 2 == 0 ==> Evens(fields + [last]) == Evens(fields) + [last] && Odds(fields + [last]) == Odds(fields)
    ensures |fields| % 2 == 1 ==> Odds(fields + [last]) == Odds(fields) + [last] && Evens(fields + [last]) == Evens(fields)
    decreases |fields|
  {
    if fields == [] {
      assert ([] + [last])[1..] == [];
    } else {
      assert (fields + [last])[1..] == fields[1..] + [last];
      EvensAndOdds(fields[1..], last);
    }
  }

  lemma {:induction false} PairsZip(fields: seq<string>)
    requires |fields| % 2 == 0
    ensures |Pairs(fields)| == |Evens(fields)| == |Odds(fields)|
    ensures forall i :: 0 <= i < |Pairs(fields)| ==> Pairs(fields)[i] == Addr(Evens(fields)[i], Odds(fields)[i])
    decreases |fields|
  {
    if fields == [] {
    } else {
      PairsZip(fields[2..]);
      assert fields[1..][1..] == fields[2..];
      assert Evens(fields) == [fields[0]] + Evens(fields[2..]);
      assert Odds(fields) == [fields[1]] + Odds(fields[2..]);
    }
  }

  /** What the initial parser has not taken apart yet. */
  function Unread(tmp: string, message: string, i: nat): string
    requires i <= |message|
  {
    tmp + message[i..]
  }

  /** Where the loop of the initial parser stands: the fields done so far, dealt
      out to ip and port, and the field it is in the middle of. */
  ghost predicate Reading(message: string, i: nat, tmp: string, done: seq<string>, ip: seq<string>, port: seq<string>)
    requires i <= |message|
  {
    && Clean(tmp) && ip == Evens(done) && port == Odds(done)
    && Fields(message) == done + Fields(Unread(tmp, message, i))
  }

  lemma ReadingStarts(message: string)
    ensures Reading(message, 0, "", [], [], [])
  {
    assert Unread("", message, 0) == message;
  }

  lemma ReadOther(message: string, i: nat, tmp: string, done: seq<string>, ip: seq<string>, port: seq<string>)
    requires i < |message| && message[i] != HASH
    requires Reading(message, i, tmp, done, ip, port)
    ensures Reading(message, i + 1, tmp + [message[i]], done, ip, port)
  {
    assert message[i..] == [message[i]] + message[i + 1..];
    assert Unread(tmp, message, i) == Unread(tmp + [message[i]], message, i + 1);
  }

  lemma FieldsSplit(first: string, rest: string)
    requires Clean(first)
    ensures Fields(Sep(first, rest)) == [first] + Fields(rest)
  {
    var s := Sep(first, rest);
    assert s == first + ("#" + rest);
    FirstHashSkipsClean(first, "#" + rest);
    assert s[..|first|] == first && s[|first| + 1..] == rest;
  }

  lemma UnreadAtHash(message: string, i: nat, tmp: string)
    requires i < |message| && message[i] == HASH && Clean(tmp)
    ensures Fields(Unread(tmp, message, i)) == [tmp] + Fields(Unread("", message, i + 1))
  {
    assert Unread(tmp, message, i) == Sep(tmp, message[i + 1..]);
    assert Unread("", message, i + 1) == message[i + 1..];
    FieldsSplit(tmp, message[i + 1..]);
  }

  lemma ReadHash(message: string, i: nat, tmp: string, done: seq<string>, ip: seq<string>, port: seq<string>)
    requires i < |message| && message[i] == HASH
    requires Reading(message, i, tmp, done, ip, port)
    ensures if |done| % 2 == 0
            then Reading(message, i + 1, "", done + [tmp], ip + [tmp], port)
            else Reading(message, i + 1, "", done + [tmp], ip, port + [tmp])
  {
    hide Fields, Unread, Evens, Odds;
    EvensAndOdds(done, tmp);
    UnreadAtHash(message, i, tmp);
  }

  lemma FieldsOfClean(field: string)
    requires Clean(field)
    ensures Fields(field) == [field]
  {
    FirstHashSkipsClean(field, "");
    assert field + "" == field;
  }

  lemma ReadingEnds(message: string, tmp: string, done: seq<string>, ip: seq<string>, port: seq<string>)
    requires Reading(message, |message|, tmp, done, ip, port)
    ensures Fields(message) == done + [tmp] && ip == Evens(done) && port == Odds(done)
  {
    assert Unread(tmp, message, |message|) == tmp;
    FieldsOfClean(tmp);
  }

  /** The loop of the initial parser: fields go to ip and port in turn, and the
      last one always to port. */
  method Unpack(message: string) returns (ip: seq<string>, port: seq<string>)
    ensures var fields := Fields(message);
            && ip == Evens(fields[..|fields| - 1])
            && port == Odds(fields[..|fields| - 1]) + [fields[|fields| - 1]]
  {
    hide Reading;
    var count := 0;
    var tmp := "";
    ip, port := [], [];
    ghost var done: seq<string> := [];
    ReadingStarts(message);
    var i := 0;
    while i < |message|
      invariant 0 <= i <= |message| && count == |done|
      invariant Reading(message, i, tmp, done, ip, port)
    {
      var single := message[i];
      if single != HASH {
        ReadOther(message, i, tmp, done, ip, port);
        tmp := tmp + [single];
      } else {
        ReadHash(message, i, tmp, done, ip, port);
        if count % 2 == 0 {
          ip := ip + [tmp];
        } else {
          port := port + [tmp];
        }
        done := done + [tmp];
        tmp := "";
        count := count + 1;
      }
      i := i + 1;
    }
    ReadingEnds(message, tmp, done, ip, port);
    assert Fields(message)[..|done|] == done;
    port := port + [tmp];
  }

  /** The initial list as the cache reads it. */
  method Initial(message: string) returns (r: Option<seq<Addr>>)
    ensures r == ParseInit(message)
  {
    var ip, port := Unpack(message);
    ghost var fields := Fields(message);
    ghost var done, last := fields[..|fields| - 1], fields[|fields| - 1];
    assert done + [last] == fields;
    EvensAndOdds(done, last);
    if |ip| != |port| {
      return None;
    }
    PairsZip(done + [last]);
    assert ip == Evens(done + [last]) && port == Odds(done + [last]);
    var list: seq<Addr> := [];
    var i := 0;
    while i < |ip|
      invariant 0 <= i <= |ip|
      invariant list == Pairs(done + [last])[..i]
    {
      list := list + [Addr(ip[i], port[i])];
      i := i + 1;
    }
    assert list == Pairs(done + [last]);
    return Some(list);
  }

  lemma {:induction false} BeforeFirstHashIsClean(s: string)
    ensures Clean(s[..FirstHash(s)])
  {
    if s == "" {
    } else if s[0] != HASH {
      BeforeFirstHashIsClean(s[1..]);
      assert s[..FirstHash(s)] == [s[0]] + s[1..][..FirstHash(s[1..])];
    }
  }

  lemma {:induction false} FieldsAreClean(s: string)
    ensures forall f :: f in Fields(s) ==> Clean(f)
    decreases |s|
  {
    var n := FirstHash(s);
    BeforeFirstHashIsClean(s);
    if n < |s| {
      FieldsAreClean(s[n + 1..]);
    } else {
      assert s[..n] == s;
    }
  }

  lemma {:induction false} PairsOfClean(fields: seq<string>)
    requires |fields| % 2 == 0 && forall f :: f in fields ==> Clean(f)
    ensures forall a :: a in Pairs(fields) ==> CleanAddr(a)
    decreases |fields|
  {
    if fields == [] {
    } else {
      assert forall f :: f in fields[2..] ==> f in fields;
      PairsOfClean(fields[2..]);
    }
  }

  lemma FieldsOfAddr(a: Addr)
    requires CleanAddr(a)
    ensures Fields(AddrText(a)) == [a.ip, a.port]
  {
    FieldsSplit(a.ip, a.port);
    FieldsOfClean(a.port);
  }

  lemma SepIsAssociative(a: string, b: string, c: string)
    ensures Sep(Sep(a, b), c) == Sep(a, Sep(b, c))
  {
  }

  lemma PairsCons(a: Addr, rest: seq<string>)
    requires |rest| % 2 == 0
    ensures Pairs([a.ip, a.port] + rest) == [a] + Pairs(rest)
  {
    assert ([a.ip, a.port] + rest)[2..] == rest;
  }

  lemma FieldsAfterAddr(a: Addr, rest: string)
    requires CleanAddr(a)
    ensures Fields(Sep(AddrText(a), rest)) == [a.ip, a.port] + Fields(rest)
  {
    SepIsAssociative(a.ip, a.port, rest);
    hide Sep, Fields;
    FieldsSplit(a.ip, Sep(a.port, rest));
    FieldsSplit(a.port, rest);
  }

  lemma PrintedCons(addrs: seq<Addr>)
    requires addrs != []
    ensures Join(AddrTexts(addrs)) ==
            if |addrs| == 1 then AddrText(addrs[0]) else Sep(AddrText(addrs[0]), Join(AddrTexts(addrs[1..])))
  {
    hide AddrText, Sep;
    assert AddrTexts(addrs)[1..] == AddrTexts(addrs[1..]);
  }

  lemma OnePair(a: Addr)
    ensures Pairs([a.ip, a.port]) == [a]
  {
    assert [a.ip, a.port][2..] == [];
  }

  lemma {:induction false} FieldsOfPrinted(addrs: seq<Addr>)
    requires addrs != [] && forall a :: a in addrs ==> CleanAddr(a)
    ensures |Fields(Join(AddrTexts(addrs)))| % 2 == 0
    ensures Pairs(Fields(Join(AddrTexts(addrs)))) == addrs
    decreases |addrs|
  {
    hide Fields, Sep, AddrText, Pairs, CleanAddr;
    var a, rest := addrs[0], addrs[1..];
    assert a in addrs;
    PrintedCons(addrs);
    hide Join, AddrTexts;
    if rest == [] {
      FieldsOfAddr(a);
      OnePair(a);
      assert [a] == addrs;
    } else {
      assert forall b :: b in rest ==> b in addrs;
      FieldsOfPrinted(rest);
      var tail := Join(AddrTexts(rest));
      FieldsAfterAddr(a, tail);
      PairsCons(a, Fields(tail));
      assert [a] + rest == addrs;
    }
  }

  /** Reading back the initial list gives the list that was sent exactly when no
      address has a '#' in it. */
  lemma InitRoundTripIff(addrs: seq<Addr>)
    requires addrs != []
    ensures ParseInit(Join(AddrTexts(addrs))) == Some(addrs) <==> forall a :: a in addrs ==> CleanAddr(a)
  {
    var s := Join(AddrTexts(addrs));
    FieldsAreClean(s);
    if |Fields(s)| % 2 == 0 {
      PairsOfClean(Fields(s));
    }
    if forall a :: a in addrs ==> CleanAddr(a) {
      FieldsOfPrinted(addrs);
    }
  }
}
