/** Printing endpoint labels into a TXT record and reading them back (endpoint/labels.go). */
module Labels {
  import opened Wrappers
  import opened Sorting
  import opened Strings

  const HERITAGE := "external-dns"
  const NONCE := "txt-encryption-nonce"

  type Map = map<string, string>

  datatype Error = InvalidHeritage

  // ---- quotes ----

  function TrimLeft(s: string): string {
    if s != "" && s[0] == '"' then TrimLeft(s[1..]) else s
  }

  function TrimRight(s: string): (r: string)
    ensures |r| <= |s| && (forall c | c in r :: c in s)
    ensures r == s <==> s == "" || s[|s| - 1] != '"'
  {
    if s != "" && s[|s| - 1] == '"' then TrimRight(s[..|s| - 1]) else s
  }

  /** strings.Trim with a quote. */
  function TrimQuotes(s: string): string {
    TrimRight(TrimLeft(s))
  }

  /** Trimming takes all quotes off both ends and nothing else. */
  lemma TrimQuotesExactly(s: string) returns (a: nat, b: nat)
    ensures a <= b <= |s| && TrimQuotes(s) == s[a..b]
    ensures (forall k | 0 <= k < a || b <= k < |s| :: s[k] == '"')
    ensures a < b ==> s[a] != '"' && s[b - 1] != '"'
  {
    a := TrimLeftCuts(s);
    var t := TrimLeft(s);
    var n := TrimRightCuts(t);
    b := a + n;
    assert forall k | b <= k < |s| :: s[k] == t[k - a];
  }

  lemma {:induction false} TrimLeftCuts(s: string) returns (a: nat)
    ensures a <= |s| && TrimLeft(s) == s[a..] && (forall k | 0 <= k < a :: s[k] == '"') && (a < |s| ==> s[a] != '"')
  {
    a := 0;
    if s != "" && s[0] == '"' {
      var rest := TrimLeftCuts(s[1..]);
      a := rest + 1;
    }
  }

  lemma {:induction false} TrimRightCuts(s: string) returns (b: nat)
    ensures b <= |s| && TrimRight(s) == s[..b] && (forall k | b <= k < |s| :: s[k] == '"') && (b > 0 ==> s[b - 1] != '"')
  {
    b := |s|;
    if s != "" && s[|s| - 1] == '"' { b := TrimRightCuts(s[..|s| - 1]); }
  }

  lemma {:induction false} TrimRightStops(p: string, v: string)
    requires p != "" && p[|p| - 1] != '"'
    ensures TrimRight(p + v) == p + TrimRight(v)
    decreases |v|
  {
    if v == "" {
      assert p + v == p;
    } else if v[|v| - 1] == '"' {
      TrimRightStops(p, v[..|v| - 1]);
      assert (p + v)[..|p + v| - 1] == p + v[..|v| - 1];
    }
  }

  // ---- printing ----

  /** One token per label, in the order of keys. */
  function Entry(m: Map, k: string): string
    requires k in m
  {
    HERITAGE + "/" + k + "=" + m[k]
  }

  function Tokens(m: Map, keys: seq<string>): (r: seq<string>)
    requires forall k | k in keys :: k in m
    ensures |r| == |keys| + 1
  {
    if keys == [] then ["heritage=" + HERITAGE]
    else
      assert keys[|keys| - 1] in keys && forall k | k in keys[..|keys| - 1] :: k in keys;
      Tokens(m, keys[..|keys| - 1]) + [Entry(m, keys[|keys| - 1])]
  }

  function Quoted(text: string, withQuotes: bool): string {
    if withQuotes then "\"" + text + "\"" else text
  }

  predicate IsPrinted(k: string) { k != NONCE }

  /** keys lists the labels to print, in order and without repetition. */
  ghost predicate IsKeys(m: Map, keys: seq<string>) {
    && Sorted(Less, keys)
    && (forall k :: multiset(keys)[k] == if k in m && IsPrinted(k) then 1 else 0)
  }

  /** The printed form does not depend on the order in which the map is walked. */
  lemma KeysUnique(m: Map, a: seq<string>, b: seq<string>)
    requires IsKeys(m, a) && IsKeys(m, b)
    ensures a == b
  {
    assert multiset(a) == multiset(b) by {
      forall k ensures multiset(a)[k] == multiset(b)[k] {}
    }
    LessIsOrder(a);
    SortedUnique(Less, a, b);
  }

  lemma KeysMembers(m: Map, keys: seq<string>)
    requires IsKeys(m, keys)
    ensures forall k :: k in keys <==> k in m && k != NONCE
  {
    forall k ensures k in keys <==> k in m && k != NONCE {
      assert k in keys <==> k in multiset(keys);
    }
  }

  lemma KeysAscend(m: Map, keys: seq<string>)
    requires IsKeys(m, keys)
    ensures forall j, k | 0 <= j < k < |keys| :: Less(keys[j], keys[k])
  {
    hide Less;
    forall j, k | 0 <= j < k < |keys| ensures Less(keys[j], keys[k]) {
      var before, from := keys[..k], keys[k..];
      assert keys == before + from;
      assert before[j] == keys[j] && from[0] == keys[k];
      assert before[j] in multiset(before) && from[0] in multiset(from);
      assert multiset(keys)[keys[k]] == multiset(before)[keys[k]] + multiset(from)[keys[k]];
      LessTotal(keys[j], keys[k]);
    }
  }

  lemma {:induction false} TokensExactly(m: Map, keys: seq<string>)
    requires forall k | k in keys :: k in m
    ensures |Tokens(m, keys)| == |keys| + 1 && Tokens(m, keys)[0] == "heritage=external-dns"
    ensures forall j | 0 <= j < |keys| ::
              keys[j] in m && Tokens(m, keys)[j + 1] == "external-dns/" + keys[j] + "=" + m[keys[j]]
    decreases |keys|
  {
    assert "heritage=" + HERITAGE == "heritage=external-dns" && HERITAGE + "/" == "external-dns/";
    if keys != [] {
      var init := keys[..|keys| - 1];
      assert forall k | k in init :: k in keys;
      assert keys[|keys| - 1] in keys;
      TokensExactly(m, init);
    }
  }

  /** The printed text: the heritage, then every label but the nonce in ascending order of its
      key, separated by commas and perhaps quoted. */
  lemma PrintedExactly(m: Map, keys: seq<string>, withQuotes: bool, text: string) returns (tokens: seq<string>)
    requires IsPrinting(m, withQuotes, keys, text)
    ensures text == if withQuotes then "\"" + Join(tokens, ',') + "\"" else Join(tokens, ',')
    ensures |tokens| == |keys| + 1 && tokens[0] == "heritage=external-dns"
    ensures forall j | 0 <= j < |keys| :: keys[j] in m && tokens[j + 1] == "external-dns/" + keys[j] + "=" + m[keys[j]]
    ensures forall k :: k in keys <==> k in m && k != "txt-encryption-nonce"
    ensures forall j, k | 0 <= j < k < |keys| :: Less(keys[j], keys[k])
  {
    tokens := Tokens(m, keys);
    KeysMembers(m, keys);
    TokensExactly(m, keys);
    KeysAscend(m, keys);
  }

  /** The keys of a map in some order. */
  method CollectKeys(m: Map) returns (keys: seq<string>)
    ensures forall k :: multiset(keys)[k] == if k in m then 1 else 0
  {
    keys := [];
    var todo := m.Keys;
    while todo != {}
      invariant todo <= m.Keys
      invariant forall k :: multiset(keys)[k] == if k in m && k !in todo then 1 else 0
      decreases todo
    {
      var key :| key in todo;
      keys := keys + [key];
      todo := todo - {key};
    }
  }

  /** The token loop: one entry per key, skipping the nonce. */
  method PrintTokens(m: Map, keys: seq<string>) returns (tokens: seq<string>)
    requires forall k | k in keys :: k in m
    ensures tokens == Tokens(m, Filter(IsPrinted, keys))
  {
    tokens := ["heritage=" + HERITAGE];
    ghost var printed: seq<string> := [];
    assert keys[..0] == [];
    for i := 0 to |keys|
      invariant printed == Filter(IsPrinted, keys[..i])
      invariant forall k | k in printed :: k in m
      invariant tokens == Tokens(m, printed)
    {
      assert keys[..i + 1] == keys[..i] + [keys[i]];
      FilterSnoc(IsPrinted, keys[..i], keys[i]);
      if keys[i] != NONCE {
        tokens := tokens + [Entry(m, keys[i])];
        assert (printed + [keys[i]])[..|printed|] == printed;
        printed := printed + [keys[i]];
      }
    }
    assert keys[..|keys|] == keys;
  }

  lemma SortedKeys(m: Map, collected: seq<string>)
    requires forall k :: multiset(collected)[k] == if k in m then 1 else 0
    ensures forall k | k in Sort(Less, collected) :: k in m
    ensures IsKeys(m, Filter(IsPrinted, Sort(Less, collected)))
  {
    LessIsOrder(collected);
    SortSorted(Less, collected);
    SortPermutes(Less, collected);
    var keys := Sort(Less, collected);
    forall k | k in keys ensures k in m { assert k in multiset(collected); }
    FilterSorted(Less, IsPrinted, keys);
    forall k ensures multiset(Filter(IsPrinted, keys))[k] == if k in m && IsPrinted(k) then 1 else 0 {
      FilterCounts(IsPrinted, keys, k);
    }
  }

  /** text prints m: the heritage token, then one token per key in order. */
  ghost predicate IsPrinting(m: Map, withQuotes: bool, keys: seq<string>, text: string) {
    && IsKeys(m, keys) && (forall k | k in keys :: k in m)
    && text == Quoted(Join(Tokens(m, keys), ','), withQuotes)
  }

  /** SerializePlain. */
  method SerializePlain(m: Map, withQuotes: bool) returns (text: string)
    ensures exists printed :: IsPrinting(m, withQuotes, printed, text)
  {
    var keys := CollectKeys(m);
    SortedKeys(m, keys);
    keys := Sort(Less, keys);
    ghost var printed := Filter(IsPrinted, keys);
    var tokens := PrintTokens(m, keys);
    text := Quoted(Join(tokens, ','), withQuotes);
    assert IsPrinting(m, withQuotes, printed, text);
  }

  // ---- reading ----

  datatype Reading = Reading(labels: Map, found: bool)

  /** What one token does to the labels read so far. */
  function ReadToken(r: Reading, token: string): Result<Reading, Error> {
    var k := IndexOf(token, '=');
    if k == |token| then Ok(r)
    else
      var key, val := token[..k], token[k + 1..];
      if key == "heritage" then
        if val != HERITAGE then Err(InvalidHeritage) else Ok(r.(found := true))
      else if HasPrefix(key, HERITAGE) then
        Ok(r.(labels := r.labels[if HasPrefix(key, HERITAGE + "/") then key[|HERITAGE| + 1..] else key := val]))
      else Ok(r)
  }

  function ReadTokens(tokens: seq<string>): Result<Reading, Error> {
    if tokens == [] then Ok(Reading(map[], false))
    else
      match ReadTokens(tokens[..|tokens| - 1])
      case Ok(r) => ReadToken(r, tokens[|tokens| - 1])
      case Err(e) => Err(e)
  }

  /** What the text says, or that it is not ours. */
  function Parsed(text: string): Result<Map, Error> {
    match ReadTokens(Split(TrimQuotes(text), ','))
    case Ok(r) => if r.found then Ok(r.labels) else Err(InvalidHeritage)
    case Err(e) => Err(e)
  }

  lemma {:induction false} ErrorsStick(tokens: seq<string>, n: nat)
    requires n <= |tokens| && ReadTokens(tokens[..n]).Err?
    ensures ReadTokens(tokens) == ReadTokens(tokens[..n])
    decreases |tokens| - n
  {
    if n == |tokens| {
      assert tokens[..n] == tokens;
    } else {
      assert tokens[..n + 1][..n] == tokens[..n];
      ErrorsStick(tokens, n + 1);
    }
  }

  /** NewLabelsFromStringPlain. */
  method NewLabelsFromStringPlain(labelText: string) returns (r: Result<Map, Error>)
    ensures r == Parsed(labelText)
  {
    var endpointLabels: Map := map[];
    var tokens := Split(TrimQuotes(labelText), ',');
    var foundExternalDNSHeritage := false;
    assert tokens[..0] == [];
    for i := 0 to |tokens|
      invariant ReadTokens(tokens[..i]) == Ok(Reading(endpointLabels, foundExternalDNSHeritage))
    {
      var token := tokens[i];
      assert tokens[..i + 1][..i] == tokens[..i];
      var k := IndexOf(token, '=');
      if k == |token| { continue; }
      var key, val := token[..k], token[k + 1..];
      if key == "heritage" && val != HERITAGE {
        ErrorsStick(tokens, i + 1);
        return Err(InvalidHeritage);
      }
      if key == "heritage" {
        foundExternalDNSHeritage := true;
        continue;
      }
      if HasPrefix(key, HERITAGE) {
        var name := if HasPrefix(key, HERITAGE + "/") then key[|HERITAGE| + 1..] else key;
        endpointLabels := endpointLabels[name := val];
      }
    }
    assert tokens[..|tokens|] == tokens;
    if !foundExternalDNSHeritage { return Err(InvalidHeritage); }
    return Ok(endpointLabels);
  }

  // ---- what a text says ----

  /** The token names a heritage. */
  predicate IsHeritage(token: string, heritage: string) {
    token == "heritage=" + heritage
  }

  /** The token gives a label: after the prefix "external-dns/", or under its whole key when
      that only starts with "external-dns". The value may hold equals signs. */
  predicate Gives(token: string, name: string, value: string) {
    && '=' !in name
    && (token == "external-dns/" + name + "=" + value
        || (HasPrefix(name, "external-dns") && !HasPrefix(name, "external-dns/") && token == name + "=" + value))
  }

  /** Cutting at the first equals sign. */
  lemma KeyedExactly(token: string, key: string, value: string)
    requires '=' !in key
    ensures token == key + "=" + value <==>
            var k := IndexOf(token, '='); k < |token| && token[..k] == key && token[k + 1..] == value
  {
    var k := IndexOf(token, '=');
    if token == key + "=" + value {
      CutAfter(key, value);
    } else if k < |token| && token[..k] == key && token[k + 1..] == value {
      CutJoins(token, k);
    }
  }

  lemma CutAfter(key: string, value: string)
    requires '=' !in key
    ensures var token := key + "=" + value;
            IndexOf(token, '=') == |key| && token[..|key|] == key && token[|key| + 1..] == value
  {
    IndexOfIs(key, '=', value);
    assert key + "=" + value == key + ['='] + value;
  }

  lemma CutJoins(token: string, k: nat)
    requires k < |token| && token[k] == '='
    ensures token == token[..k] + "=" + token[k + 1..]
  {
  }

  lemma HeritageExactly(token: string, heritage: string)
    ensures IsHeritage(token, heritage) <==>
            var k := IndexOf(token, '='); k < |token| && token[..k] == "heritage" && token[k + 1..] == heritage
  {
    hide IndexOf;
    KeyedExactly(token, "heritage", heritage);
    assert "heritage=" + heritage == "heritage" + "=" + heritage;
  }

  /** The name a key stands for, once it is known to start with the prefix h. */
  function NameOfKey(h: string, key: string): string {
    if HasPrefix(key, h + "/") then key[|h| + 1..] else key
  }

  lemma NameOfKeyExactly(h: string, key: string, name: string)
    ensures HasPrefix(key, h) && name == NameOfKey(h, key) <==>
            key == h + "/" + name || (HasPrefix(name, h) && !HasPrefix(name, h + "/") && key == name)
  {
    if key == h + "/" + name {
      assert key[..|h|] == h && key[..|h| + 1] == h + "/" && key[|h| + 1..] == name;
    }
    if HasPrefix(key, h + "/") {
      assert key == key[..|h| + 1] + key[|h| + 1..];
      assert (h + "/")[..|h|] == h && key[..|h|] == key[..|h| + 1][..|h|];
    }
  }

  /** What a token gives, in terms of its cut. */
  lemma GivesExactly(token: string, name: string, value: string)
    ensures Gives(token, name, value) <==>
            var k := IndexOf(token, '=');
            && k < |token| && token[k + 1..] == value
            && HasPrefix(token[..k], HERITAGE) && name == NameOfKey(HERITAGE, token[..k])
  {
    hide IndexOf, NameOfKey, HasPrefix;
    var k := IndexOf(token, '=');
    Literals(name, value);
    if '=' !in name {
      KeyedExactly(token, HERITAGE + "/" + name, value);
      KeyedExactly(token, name, value);
      NameOfKeyExactly(HERITAGE, token[..k], name);
    } else {
      NameInKey(HERITAGE, token[..k], name);
    }
  }

  lemma NameInKey(h: string, key: string, name: string)
    requires '=' in name && '=' !in key
    ensures name != NameOfKey(h, key)
  {
    assert forall c | c in NameOfKey(h, key) :: c in key;
  }

  lemma Literals(name: string, value: string)
    ensures HERITAGE == "external-dns" && HERITAGE + "/" == "external-dns/"
    ensures '=' !in name ==> '=' !in HERITAGE + "/" + name
    ensures "external-dns/" + name + "=" + value == (HERITAGE + "/" + name) + "=" + value
  {
    assert HERITAGE + "/" == "external-dns/";
    assert '=' !in HERITAGE && '=' !in "/";
  }

  /** A text is ours exactly when one of its tokens names our heritage and none another. */
  lemma {:induction false} HeritageDecides(tokens: seq<string>)
    ensures ReadTokens(tokens).Err? <==> exists t, h :: t in tokens && h != "external-dns" && IsHeritage(t, h)
    ensures ReadTokens(tokens).Ok? ==> (ReadTokens(tokens).value.found <==> "heritage=external-dns" in tokens)
  {
    if tokens != [] {
      var init, last := tokens[..|tokens| - 1], tokens[|tokens| - 1];
      assert tokens == init + [last];
      HeritageDecides(init);
      HeritageOfLast(last);
      if t, h :| t in init && h != "external-dns" && IsHeritage(t, h) { assert t in tokens; }
    }
  }

  lemma HeritageOfLast(token: string)
    ensures forall r :: ReadToken(r, token).Err? <==> exists h :: h != "external-dns" && IsHeritage(token, h)
    ensures forall r :: ReadToken(r, token).Ok? ==>
                        (ReadToken(r, token).value.found <==> r.found || token == "heritage=external-dns")
  {
    var k := IndexOf(token, '=');
    HeritageExactly(token, "external-dns");
    assert "heritage=" + "external-dns" == "heritage=external-dns";
    if k < |token| { HeritageExactly(token, token[k + 1..]); }
    forall h | IsHeritage(token, h) ensures k < |token| && token[..k] == "heritage" && token[k + 1..] == h {
      HeritageExactly(token, h);
    }
  }

  /** Position k holds the last token that gives a label of that name, with that value. */
  ghost predicate LastGivenAt(tokens: seq<string>, name: string, value: string, k: nat) {
    && k < |tokens| && Gives(tokens[k], name, value)
    && forall j, v | k < j < |tokens| :: !Gives(tokens[j], name, v)
  }

  ghost predicate HasLabel(m: Map, name: string, v: string) {
    name in m && m[name] == v
  }

  /** A label has the value of the last token that gives it; where none does, it is missing. */
  lemma {:induction false} LastGivenCounts(tokens: seq<string>, name: string)
    requires ReadTokens(tokens).Ok?
    ensures forall v :: HasLabel(ReadTokens(tokens).value.labels, name, v) <==> exists k: nat :: LastGivenAt(tokens, name, v, k)
  {
    if tokens != [] {
      var init, last := tokens[..|tokens| - 1], tokens[|tokens| - 1];
      LastGivenCounts(init, name);
      TokenGives(ReadTokens(init).value, last, name);
      forall v
        ensures HasLabel(ReadTokens(tokens).value.labels, name, v) <==> exists k: nat :: LastGivenAt(tokens, name, v, k)
      {
        LastGivenStep(tokens, name, v);
        assert HasLabel(ReadTokens(init).value.labels, name, v) <==> exists k: nat :: LastGivenAt(init, name, v, k);
      }
    }
  }

  lemma LastGivenStep(tokens: seq<string>, name: string, v: string)
    requires tokens != []
    ensures var init, last := tokens[..|tokens| - 1], tokens[|tokens| - 1];
            (exists k: nat :: LastGivenAt(tokens, name, v, k)) <==>
            Gives(last, name, v) || ((forall x :: !Gives(last, name, x)) && exists k: nat :: LastGivenAt(init, name, v, k))
  {
    hide Gives;
    var init, n := tokens[..|tokens| - 1], |tokens| - 1;
    if k: nat :| LastGivenAt(tokens, name, v, k) && k < n {
      assert init[k] == tokens[k] && LastGivenAt(init, name, v, k);
      assert forall x :: !Gives(tokens[n], name, x);
    }
    if Gives(tokens[n], name, v) { assert LastGivenAt(tokens, name, v, n); }
    if forall x :: !Gives(tokens[n], name, x) {
      if k: nat :| LastGivenAt(init, name, v, k) {
        assert forall j | k < j < n :: init[j] == tokens[j];
        assert LastGivenAt(tokens, name, v, k);
      }
    }
  }

  /** One token sets exactly the label it gives, if any. */
  lemma TokenGives(r: Reading, token: string, name: string)
    requires ReadToken(r, token).Ok?
    ensures var r' := ReadToken(r, token).value;
            && (forall v :: Gives(token, name, v) ==> HasLabel(r'.labels, name, v))
            && ((forall v :: !Gives(token, name, v)) ==>
                  (name in r'.labels <==> name in r.labels) && (name in r.labels ==> r'.labels[name] == r.labels[name]))
  {
    hide Gives, IndexOf;
    var k := IndexOf(token, '=');
    HeritageKeyGivesNothing();
    forall v ensures Gives(token, name, v) <==>
                     && k < |token| && token[k + 1..] == v
                     && HasPrefix(token[..k], HERITAGE) && name == NameOfKey(HERITAGE, token[..k])
    {
      GivesExactly(token, name, v);
    }
    if k < |token| { assert Gives(token, name, token[k + 1..]) <==> HasPrefix(token[..k], HERITAGE) && name == NameOfKey(HERITAGE, token[..k]); }
  }

  lemma HeritageKeyGivesNothing()
    ensures !HasPrefix("heritage", HERITAGE)
  {
    assert |HERITAGE| > |"heritage"|;
  }

  /** What NewLabelsFromStringPlain returns, token by token of the text between its quotes: an
      error exactly when no token is "heritage=external-dns" or some token names another
      heritage, and otherwise the labels the tokens give, the last of a name counting. */
  lemma ParsedExactly(text: string)
    ensures var tokens := Split(TrimQuotes(text), ',');
            && (Parsed(text).Ok? <==> && "heritage=external-dns" in tokens
                                      && forall t, h | t in tokens && IsHeritage(t, h) :: h == "external-dns")
            && (Parsed(text).Ok? ==> forall name, v ::
                  HasLabel(Parsed(text).value, name, v) <==> exists k: nat :: LastGivenAt(tokens, name, v, k))
  {
    hide LastGivenAt, IsHeritage;
    var tokens := Split(TrimQuotes(text), ',');
    HeritageDecides(tokens);
    if Parsed(text).Ok? {
      forall name, v
        ensures HasLabel(Parsed(text).value, name, v) <==> exists k: nat :: LastGivenAt(tokens, name, v, k)
      {
        LastGivenCounts(tokens, name);
      }
    }
  }

  // ---- the round trip ----

  /** No separator where the format cannot carry it. */
  ghost predicate Separable(m: Map) {
    forall k | k in m :: ',' !in k && '=' !in k && ',' !in m[k]
  }

  /** Whatever is read is separable. */
  lemma {:induction false} ReadIsSeparable(tokens: seq<string>)
    requires forall t | t in tokens :: ',' !in t
    ensures ReadTokens(tokens).Ok? ==> Separable(ReadTokens(tokens).value.labels)
  {
    if tokens != [] {
      assert forall t | t in tokens[..|tokens| - 1] :: t in tokens;
      ReadIsSeparable(tokens[..|tokens| - 1]);
      assert tokens[|tokens| - 1] in tokens;
    }
  }

  /** Restrict a map to the given keys. */
  ghost function Only(m: Map, keys: seq<string>): Map {
    map k | k in m && k in keys :: m[k]
  }

  lemma ReadEntry(r: Reading, m: Map, k: string)
    requires k in m && '=' !in k
    ensures ReadToken(r, Entry(m, k)) == Ok(r.(labels := r.labels[k := m[k]]))
  {
    var key := HERITAGE + "/" + k;
    assert '=' !in HERITAGE + "/";
    assert Entry(m, k) == key + ['='] + m[k];
    IndexOfIs(key, '=', m[k]);
    assert Entry(m, k)[..|key|] == key && Entry(m, k)[|key| + 1..] == m[k];
    assert key[..|HERITAGE|] == HERITAGE && key[..|HERITAGE| + 1] == HERITAGE + "/" && key[|HERITAGE| + 1..] == k;
    assert key[0] == 'e';
  }

  lemma ReadHeritage()
    ensures ReadTokens(["heritage=" + HERITAGE]) == Ok(Reading(map[], true))
  {
    var t := "heritage=" + HERITAGE;
    assert t == "heritage" + ['='] + HERITAGE;
    IndexOfIs("heritage", '=', HERITAGE);
    assert t[..8] == "heritage" && t[9..] == HERITAGE;
    var one: seq<string> := [t];
    assert one[..0] == [];
  }

  lemma ReadSnoc(ts: seq<string>, r: Reading, m: Map, k: string)
    requires ReadTokens(ts) == Ok(r) && k in m && '=' !in k
    ensures ReadTokens(ts + [Entry(m, k)]) == Ok(r.(labels := r.labels[k := m[k]]))
  {
    assert (ts + [Entry(m, k)])[..|ts|] == ts;
    ReadEntry(r, m, k);
  }

  lemma OnlySnoc(m: Map, keys: seq<string>)
    requires keys != [] && keys[|keys| - 1] in m
    ensures var k := keys[|keys| - 1]; Only(m, keys) == Only(m, keys[..|keys| - 1])[k := m[k]]
  {
    assert forall x :: x in keys <==> x in keys[..|keys| - 1] || x == keys[|keys| - 1];
  }

  lemma {:induction false} ReadTokensOf(m: Map, keys: seq<string>)
    requires Separable(m) && forall k | k in keys :: k in m
    ensures ReadTokens(Tokens(m, keys)) == Ok(Reading(Only(m, keys), true))
  {
    if keys == [] {
      ReadHeritage();
      assert Only(m, []) == map[];
    } else {
      var init, k := keys[..|keys| - 1], keys[|keys| - 1];
      assert k in keys && forall x | x in init :: x in keys;
      ReadTokensOf(m, init);
      ReadSnoc(Tokens(m, init), Reading(Only(m, init), true), m, k);
      OnlySnoc(m, keys);
    }
  }

  lemma {:induction false} TokensHaveNoCommas(m: Map, keys: seq<string>)
    requires Separable(m) && forall k | k in keys :: k in m
    ensures forall t | t in Tokens(m, keys) :: ',' !in t
  {
    if keys != [] {
      var init, k := keys[..|keys| - 1], keys[|keys| - 1];
      assert k in keys && forall x | x in init :: x in keys;
      TokensHaveNoCommas(m, init);
    }
  }

  /** The labels as they come out: the last value loses its trailing quotes. */
  function Unquoted(m: Map, keys: seq<string>): Map
    requires forall k | k in keys :: k in m
  {
    if keys == [] then m
    else
      assert keys[|keys| - 1] in keys;
      m[keys[|keys| - 1] := TrimRight(m[keys[|keys| - 1]])]
  }

  lemma {:induction false} TokensAgree(m: Map, m': Map, keys: seq<string>)
    requires forall k | k in keys :: k in m && k in m' && m[k] == m'[k]
    ensures Tokens(m, keys) == Tokens(m', keys)
  {
    if keys != [] {
      assert forall k | k in keys[..|keys| - 1] :: k in keys;
      assert keys[|keys| - 1] in keys;
      TokensAgree(m, m', keys[..|keys| - 1]);
    }
  }

  /** The printed text up to the last value. */
  lemma PrintedParts(m: Map, keys: seq<string>) returns (p: string)
    requires keys != [] && (forall k | k in keys :: k in m)
    requires forall j | 0 <= j < |keys| - 1 :: keys[j] != keys[|keys| - 1]
    ensures p != "" && p[|p| - 1] == '=' && p[0] == 'h'
    ensures Join(Tokens(m, keys), ',') == p + m[keys[|keys| - 1]]
    ensures Join(Tokens(Unquoted(m, keys), keys), ',') == p + TrimRight(m[keys[|keys| - 1]])
  {
    var init, k := keys[..|keys| - 1], keys[|keys| - 1];
    assert k in keys && forall x | x in init :: x in keys;
    var m' := Unquoted(m, keys);
    TokensAgree(m, m', init);
    var ts := Tokens(m, init);
    JoinAppend(ts, [Entry(m, k)], ',');
    JoinAppend(ts, [Entry(m', k)], ',');
    var front := Join(ts, ',') + ",";
    p := front + (HERITAGE + "/" + k + "=");
    assert front + Entry(m, k) == p + m[k];
    assert front + Entry(m', k) == p + m'[k];
    TokensStart(m, init);
  }

  lemma {:induction false} TokensStart(m: Map, keys: seq<string>)
    requires forall k | k in keys :: k in m
    ensures Tokens(m, keys)[0] == "heritage=" + HERITAGE
    ensures Join(Tokens(m, keys), ',') != "" && Join(Tokens(m, keys), ',')[0] == 'h'
  {
    if keys != [] {
      assert forall k | k in keys[..|keys| - 1] :: k in keys;
      TokensStart(m, keys[..|keys| - 1]);
    }
  }

  lemma TrimLeftQuoted(text: string, withQuotes: bool)
    requires text != "" && text[0] == 'h'
    ensures TrimLeft(Quoted(text, withQuotes)) == text + if withQuotes then "\"" else ""
  {
    if withQuotes {
      assert Quoted(text, true)[1..] == text + "\"";
      assert (text + "\"")[0] == 'h';
    } else {
      assert text + "" == text;
    }
  }

  /** Trimming quotes off the printed text, quoted or not, only trims the last value. */
  lemma TrimmedPrinted(m: Map, keys: seq<string>, withQuotes: bool)
    requires forall k | k in keys :: k in m
    requires forall j | 0 <= j < |keys| - 1 :: keys[j] != keys[|keys| - 1]
    ensures TrimQuotes(Quoted(Join(Tokens(m, keys), ','), withQuotes)) == Join(Tokens(Unquoted(m, keys), keys), ',')
  {
    hide TrimLeft, Quoted;
    var text := Join(Tokens(m, keys), ',');
    TokensStart(m, keys);
    var q := if withQuotes then "\"" else "";
    TrimLeftQuoted(text, withQuotes);
    if keys == [] {
      assert text == "heritage=external-dns";
      TrimRightStops(text, q);
    } else {
      var p := PrintedParts(m, keys);
      var v := m[keys[|keys| - 1]];
      assert text + q == p + (v + q);
      TrimRightStops(p, v + q);
      if withQuotes { TrimClosingQuote(v); } else { assert v + q == v; }
    }
  }

  lemma TrimClosingQuote(v: string)
    ensures TrimRight(v + "\"") == TrimRight(v)
  {
    assert (v + "\"")[..|v|] == v;
  }

  lemma ReadSeparable(m: Map, keys: seq<string>)
    requires Separable(m) && forall k | k in keys :: k in m
    ensures ReadTokens(Split(Join(Tokens(m, keys), ','), ',')) == Ok(Reading(Only(m, keys), true))
  {
    ReadTokensOf(m, keys);
    TokensHaveNoCommas(m, keys);
    SplitJoin(Tokens(m, keys), ',');
  }

  /** What a separable map reads back as. */
  lemma ReadsBackAs(m: Map, keys: seq<string>, withQuotes: bool)
    requires Separable(m) && forall k | k in keys :: k in m
    requires forall j | 0 <= j < |keys| - 1 :: keys[j] != keys[|keys| - 1]
    ensures Parsed(Quoted(Join(Tokens(m, keys), ','), withQuotes)) == Ok(Only(Unquoted(m, keys), keys))
  {
    TrimmedPrinted(m, keys, withQuotes);
    ReadSeparable(Unquoted(m, keys), keys);
  }

  lemma DistinctLast(m: Map, keys: seq<string>)
    requires IsKeys(m, keys)
    ensures forall j | 0 <= j < |keys| - 1 :: keys[j] != keys[|keys| - 1]
  {
    if keys != [] {
      var init := keys[..|keys| - 1];
      assert keys == init + [keys[|keys| - 1]];
      assert multiset(keys)[keys[|keys| - 1]] <= 1;
      assert multiset(init)[keys[|keys| - 1]] == 0;
      forall j | 0 <= j < |keys| - 1 ensures keys[j] != keys[|keys| - 1] {
        assert init[j] in multiset(init);
      }
    }
  }

  /** The map survives the trimming exactly when its last printed value ends in no quote. */
  lemma UnquotedSame(m: Map, keys: seq<string>)
    requires forall k | k in keys :: k in m
    ensures Only(Unquoted(m, keys), keys) == Only(m, keys) <==>
            (keys != [] ==> !HasSuffix(m[keys[|keys| - 1]], "\""))
  {
    if keys != [] {
      var k := keys[|keys| - 1];
      assert k in keys;
      assert Only(Unquoted(m, keys), keys)[k] == TrimRight(m[k]) && Only(m, keys)[k] == m[k];
      assert HasSuffix(m[k], "\"") <==> m[k] != "" && m[k][|m[k]| - 1] == '"';
      if TrimRight(m[k]) == m[k] { assert Unquoted(m, keys) == m; }
    }
  }

  lemma SurvivesExactly(m: Map, keys: seq<string>, withQuotes: bool)
    requires (forall k | k in keys :: k in m) && Only(m, keys) == m
    requires forall j | 0 <= j < |keys| - 1 :: keys[j] != keys[|keys| - 1]
    ensures Parsed(Quoted(Join(Tokens(m, keys), ','), withQuotes)) == Ok(m)
            <==> Separable(m) && (keys != [] ==> !HasSuffix(m[keys[|keys| - 1]], "\""))
  {
    if Separable(m) {
      ReadsBackAs(m, keys, withQuotes);
      UnquotedSame(m, keys);
    } else {
      ReadIsSeparable(Split(TrimQuotes(Quoted(Join(Tokens(m, keys), ','), withQuotes)), ','));
    }
  }

  /** For all label maps, quoted or not: reading the printed form returns the map without the
      nonce exactly when no printed key holds a comma or an equals sign, no printed value
      holds a comma, and the value printed last does not end in a quote. */
  lemma RoundTripExactly(m: Map, keys: seq<string>, withQuotes: bool, text: string)
    requires IsPrinting(m, withQuotes, keys, text)
    ensures Parsed(text) == Ok(m - {NONCE})
            <==> && (forall k | k in m && k != NONCE :: ',' !in k && '=' !in k && ',' !in m[k])
                 && (keys != [] ==> !HasSuffix(m[keys[|keys| - 1]], "\""))
  {
    KeysMembers(m, keys);
    var m' := m - {NONCE};
    assert Only(m', keys) == m';
    TokensAgree(m, m', keys);
    DistinctLast(m, keys);
    SurvivesExactly(m', keys, withQuotes);
    assert keys != [] ==> keys[|keys| - 1] in keys;
  }
}
