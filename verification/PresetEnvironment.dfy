/** Resolution of the environment of a CMake preset: textual replacement of two built-in macros, then
    recursive expansion of environment references, with the chain of keys being resolved to detect
    cycles. */
module PresetEnvironment {

  datatype Option<+T> = None | Some(value: T)

  datatype Result<+T> = Ok(value: T) | Cycle(path: seq<string>)

  /** The preset's own entries (an entry may be null), the inherited environment and the built-ins. */
  datatype Preset = Preset(raw: map<string, Option<string>>, parent: map<string, string>, sourceDir: string,
      name: string)

  // ----- Text -----

  datatype Piece = Text(c: char) | Env(name: string) | Parent(name: string)

  /** Leftmost non-overlapping replacement. */
  function ReplaceAll(s: string, old_: string, new_: string): string
    requires old_ != ""
  {
    if |s| < |old_| then s
    else if s[..|old_|] == old_ then new_ + ReplaceAll(s[|old_|..], old_, new_)
    else [s[0]] + ReplaceAll(s[1..], old_, new_)
  }

  /** Length of the longest prefix without a closing brace. */
  function NameLength(s: string): nat {
    if s == "" || s[0] == '}' then 0 else 1 + NameLength(s[1..])
  }

  lemma {:induction false} NameLengthFits(s: string)
    ensures NameLength(s) <= |s|
    ensures NameLength(s) < |s| ==> s[NameLength(s)] == '}'
    ensures '}' !in s[..NameLength(s)]
  {
    if s != "" && s[0] != '}' {
      NameLengthFits(s[1..]);
      assert s[..NameLength(s)] == [s[0]] + s[1..][..NameLength(s[1..])];
    }
  }

  /** The name in a reference that begins with `prefix` at the start of the text, if there is one: at
      least one character, up to the first closing brace. */
  function ReferenceAt(s: string, prefix: string): Option<string> {
    if |prefix| <= |s| && s[..|prefix|] == prefix then
      var rest := s[|prefix|..];
      var n := NameLength(rest);
      NameLengthFits(rest);
      if 0 < n < |rest| then Some(rest[..n]) else None
    else None
  }

  const ENV: string := "$env{"
  const PENV: string := "$penv{"

  /** The text as characters and references, scanned from the left. */
  function Parse(s: string): seq<Piece>
    decreases |s|
  {
    if s == "" then []
    else if ReferenceAt(s, ENV).Some? then
      var name := ReferenceAt(s, ENV).value;
      [Env(name)] + Parse(s[|ENV| + |name| + 1..])
    else if ReferenceAt(s, PENV).Some? then
      var name := ReferenceAt(s, PENV).value;
      [Parent(name)] + Parse(s[|PENV| + |name| + 1..])
    else [Text(s[0])] + Parse(s[1..])
  }

  function Show(pieces: seq<Piece>): string {
    if pieces == [] then "" else ShowPiece(pieces[0]) + Show(pieces[1..])
  }

  /** A reference is the prefix, a name without closing brace, and the brace. */
  lemma ReferenceText(s: string, prefix: string)
    requires ReferenceAt(s, prefix).Some?
    ensures var name := ReferenceAt(s, prefix).value;
            var n := |prefix| + |name| + 1;
            name != "" && '}' !in name && n <= |s| && s == (prefix + name + "}") + s[n..]
  {
    var rest := s[|prefix|..];
    NameLengthFits(rest);
    var name := ReferenceAt(s, prefix).value;
    assert s == prefix + rest;
    assert rest == name + "}" + rest[|name| + 1..];
  }

  /** Parsing loses nothing. */
  lemma {:induction false} ParseKeepsText(s: string)
    ensures Show(Parse(s)) == s
    decreases |s|
  {
    if s == "" {
    } else if ReferenceAt(s, ENV).Some? {
      var name := ReferenceAt(s, ENV).value;
      ReferenceText(s, ENV);
      var rest := s[|ENV| + |name| + 1..];
      ParseKeepsText(rest);
      ShowCons(Env(name), Parse(rest));
    } else if ReferenceAt(s, PENV).Some? {
      var name := ReferenceAt(s, PENV).value;
      ReferenceText(s, PENV);
      var rest := s[|PENV| + |name| + 1..];
      ParseKeepsText(rest);
      ShowCons(Parent(name), Parse(rest));
    } else {
      ParseKeepsText(s[1..]);
      ShowCons(Text(s[0]), Parse(s[1..]));
      assert s == [s[0]] + s[1..];
    }
  }

  function ShowPiece(piece: Piece): string {
    match piece
    case Text(c) => [c]
    case Env(name) => ENV + name + "}"
    case Parent(name) => PENV + name + "}"
  }

  lemma ShowCons(piece: Piece, pieces: seq<Piece>)
    ensures Show([piece] + pieces) == ShowPiece(piece) + Show(pieces)
  {
    assert ([piece] + pieces)[1..] == pieces;
  }

  // ----- Resolution -----

  /** The text of a key before references are expanded: its own entry, else the inherited value, else
      nothing; a null entry is empty. */
  function Source(p: Preset, key: string): string {
    var value := if key in p.raw then p.raw[key] else Some(if key in p.parent then p.parent[key] else "");
    match value
    case None => ""
    case Some(s) => ReplaceAll(ReplaceAll(s, "${sourceDir}", p.sourceDir), "${presetName}", p.name)
  }

  function Pieces(p: Preset, key: string): seq<Piece> { Parse(Source(p, key)) }

  function Keys(p: Preset): set<string> { p.raw.Keys + p.parent.Keys }

  lemma UnknownIsEmpty(p: Preset, key: string)
    requires key !in Keys(p)
    ensures Pieces(p, key) == []
  {
  }

  /** Known keys not yet on the chain. */
  function Free(p: Preset, chain: seq<string>): nat { |Keys(p) - Elements(chain)| }

  function Elements(chain: seq<string>): set<string> { set k | k in chain }

  lemma ChainGrows(p: Preset, chain: seq<string>, key: string)
    requires key in Keys(p) && key !in chain
    ensures Free(p, chain + [key]) < Free(p, chain)
  {
    assert Keys(p) - Elements(chain + [key]) == Keys(p) - Elements(chain) - {key};
  }

  /** `resolve`: an error if the key is already being resolved, else its text with every reference
      expanded.  The measure shows that it always ends. */
  function Resolve(p: Preset, key: string, chain: seq<string>): Result<string>
    decreases Free(p, chain), 0, 0
  {
    if key in chain then Cycle(chain + [key])
    else
      var pieces := Pieces(p, key);
      if pieces == [] then Ok("")
      else
        if key !in Keys(p) then UnknownIsEmpty(p, key); assert false; Ok("")
        else ChainGrows(p, chain, key); Expand(p, pieces, chain + [key])
  }

  /** The pieces one after the other; the first cycle ends the expansion. */
  function Expand(p: Preset, pieces: seq<Piece>, chain: seq<string>): Result<string>
    decreases Free(p, chain), 1, |pieces|
  {
    if pieces == [] then Ok("")
    else
      var first := match pieces[0]
        case Text(c) => Ok([c])
        case Parent(name) => Ok(if name in p.parent then p.parent[name] else "")
        case Env(name) => Resolve(p, name, chain);
      if first.Cycle? then first
      else
        var rest := Expand(p, pieces[1..], chain);
        if rest.Cycle? then rest else Ok(first.value + rest.value)
  }

  // ----- Cycles -----

  /** One key's text refers to another's. */
  ghost predicate Refers(p: Preset, key: string, name: string) { Env(name) in Pieces(p, key) }

  /** A walk along references. */
  ghost predicate Walk(p: Preset, walk: seq<string>) {
    walk != [] && forall m :: 0 <= m < |walk| - 1 ==> Refers(p, walk[m], walk[m + 1])
  }

  ghost predicate Repeats(walk: seq<string>) { exists m, n :: 0 <= m < n < |walk| && walk[m] == walk[n] }

  /** A cycle of references can be reached from the key. */
  ghost predicate ReachesCycle(p: Preset, key: string) {
    exists walk :: Walk(p, walk) && walk[0] == key && Repeats(walk)
  }

  ghost predicate Distinct(chain: seq<string>) { !Repeats(chain) }

  /** An error names a real cycle: its path follows references from the chain and ends where it has been
      before. */
  ghost predicate NamesCycle(p: Preset, chain: seq<string>, path: seq<string>) {
    && Walk(p, path) && |path| > |chain| && path[..|chain|] == chain && path[|path| - 1] in path[..|path| - 1]
  }

  lemma {:induction false} ResolveNamesCycle(p: Preset, key: string, chain: seq<string>)
    requires Walk(p, chain + [key])
    ensures var r := Resolve(p, key, chain); r.Cycle? ==> NamesCycle(p, chain, r.path) && r.path[|chain|] == key
    decreases Free(p, chain), 0, 0
  {
    if key in chain {
      assert (chain + [key])[..|chain|] == chain;
    } else if Pieces(p, key) != [] {
      if key !in Keys(p) { UnknownIsEmpty(p, key); }
      ChainGrows(p, chain, key);
      ExpandNamesCycle(p, key, Pieces(p, key), chain + [key]);
      var r := Expand(p, Pieces(p, key), chain + [key]);
      if r.Cycle? { ShorterChain(p, chain, key, r.path); }
    }
  }

  lemma ShorterChain(p: Preset, chain: seq<string>, key: string, path: seq<string>)
    requires NamesCycle(p, chain + [key], path)
    ensures NamesCycle(p, chain, path) && path[|chain|] == key
  {
    assert path[|chain|] == path[..|chain| + 1][|chain|];
    assert path[..|chain|] == path[..|chain| + 1][..|chain|] == chain;
  }

  lemma {:induction false} ExpandNamesCycle(p: Preset, key: string, pieces: seq<Piece>, chain: seq<string>)
    requires Walk(p, chain) && chain[|chain| - 1] == key && forall x :: x in pieces ==> x in Pieces(p, key)
    ensures Expand(p, pieces, chain).Cycle? ==> NamesCycle(p, chain, Expand(p, pieces, chain).path)
    decreases Free(p, chain), 1, |pieces|
  {
    if pieces != [] {
      if pieces[0].Env? {
        assert Refers(p, key, pieces[0].name);
        WalkSnoc(p, chain, pieces[0].name);
        ResolveNamesCycle(p, pieces[0].name, chain);
      }
      ExpandNamesCycle(p, key, pieces[1..], chain);
    }
  }

  lemma WalkSnoc(p: Preset, walk: seq<string>, name: string)
    requires Walk(p, walk) && Refers(p, walk[|walk| - 1], name)
    ensures Walk(p, walk + [name])
  {
    var longer := walk + [name];
    forall m | 0 <= m < |longer| - 1 ensures Refers(p, longer[m], longer[m + 1]) {
      if m < |walk| - 1 { assert Refers(p, walk[m], walk[m + 1]); }
    }
  }

  lemma {:induction false} ExpandedReferences(p: Preset, pieces: seq<Piece>, chain: seq<string>, name: string)
    requires Expand(p, pieces, chain).Ok? && Env(name) in pieces
    ensures Resolve(p, name, chain).Ok?
    decreases |pieces|
  {
    if pieces[0] != Env(name) { ExpandedReferences(p, pieces[1..], chain, name); }
  }

  /** A resolved key leads, along references, neither back to its chain nor twice to the same key. */
  lemma {:induction false} ResolvedNeverReturns(p: Preset, key: string, chain: seq<string>, walk: seq<string>)
    requires Resolve(p, key, chain).Ok? && Walk(p, walk) && walk[0] == key
    ensures !Repeats(walk) && forall x :: x in walk ==> x !in chain
    decreases |walk|
  {
    if |walk| > 1 {
      var rest := walk[1..];
      assert Refers(p, walk[0], walk[1]);
      ExpandedReferences(p, Pieces(p, key), chain + [key], walk[1]);
      assert Walk(p, rest) by {
        forall m | 0 <= m < |rest| - 1 ensures Refers(p, rest[m], rest[m + 1]) {
          assert Refers(p, walk[m + 1], walk[m + 1 + 1]);
        }
      }
      ResolvedNeverReturns(p, walk[1], chain + [key], rest);
      assert key in chain + [key] && forall x :: x in chain ==> x in chain + [key];
      forall m, n | 0 <= m < n < |walk| ensures walk[m] != walk[n] {
        assert rest[n - 1] == walk[n] && rest[n - 1] in rest;
        if m > 0 { assert rest[m - 1] == walk[m]; }
      }
      assert walk == [key] + rest;
    }
  }

  /** Resolution of a key fails exactly when a cycle of references can be reached from it. */
  lemma FailsExactlyOnCycles(p: Preset, key: string)
    ensures Resolve(p, key, []).Cycle? <==> ReachesCycle(p, key)
  {
    var r := Resolve(p, key, []);
    if r.Cycle? {
      assert [] + [key] == [key] && Walk(p, [key]);
      ResolveNamesCycle(p, key, []);
      var n := |r.path| - 1;
      var m :| 0 <= m < n && r.path[m] == r.path[n];
      assert Repeats(r.path);
    } else if ReachesCycle(p, key) {
      var walk :| Walk(p, walk) && walk[0] == key && Repeats(walk);
      ResolvedNeverReturns(p, key, [], walk);
    }
  }

  // ----- The value -----

  lemma BothGrow(chain: seq<string>, fewer: seq<string>, key: string)
    requires Elements(fewer) <= Elements(chain)
    ensures Elements(fewer + [key]) <= Elements(chain + [key])
  {
    assert Elements(fewer + [key]) == Elements(fewer) + {key} && Elements(chain + [key]) == Elements(chain) + {key};
  }

  /** A key that resolves on a chain resolves on every chain with fewer keys, to the same value. */
  lemma {:induction false} ShorterChainSameValue(p: Preset, key: string, chain: seq<string>, fewer: seq<string>)
    requires Resolve(p, key, chain).Ok? && Elements(fewer) <= Elements(chain)
    ensures Resolve(p, key, fewer) == Resolve(p, key, chain)
    decreases Free(p, chain), 0, 0
  {
    assert key in Elements(fewer) ==> key in Elements(chain);
    if Pieces(p, key) != [] {
      if key !in Keys(p) { UnknownIsEmpty(p, key); }
      ChainGrows(p, chain, key);
      BothGrow(chain, fewer, key);
      ShorterChainSameExpansion(p, Pieces(p, key), chain + [key], fewer + [key]);
    }
  }

  lemma {:induction false} ShorterChainSameExpansion(p: Preset, pieces: seq<Piece>, chain: seq<string>,
      fewer: seq<string>)
    requires Expand(p, pieces, chain).Ok? && Elements(fewer) <= Elements(chain)
    ensures Expand(p, pieces, fewer) == Expand(p, pieces, chain)
    decreases Free(p, chain), 1, |pieces|
  {
    if pieces != [] {
      if pieces[0].Env? { ShorterChainSameValue(p, pieces[0].name, chain, fewer); }
      ShorterChainSameExpansion(p, pieces[1..], chain, fewer);
    }
  }

  /** Whenever it succeeds, resolution gives a value that does not depend on the chain. */
  lemma ValueIndependentOfChain(p: Preset, key: string, chain: seq<string>, chain': seq<string>)
    requires Resolve(p, key, chain).Ok? && Resolve(p, key, chain').Ok?
    ensures Resolve(p, key, chain) == Resolve(p, key, chain') == Resolve(p, key, [])
  {
    ShorterChainSameValue(p, key, chain, []);
    ShorterChainSameValue(p, key, chain', []);
  }

  /** The text with every reference replaced by the value of the key it names. */
  function Substituted(p: Preset, pieces: seq<Piece>): string {
    if pieces == [] then "" else
      (match pieces[0]
       case Text(c) => [c]
       case Parent(name) => if name in p.parent then p.parent[name] else ""
       case Env(name) => Value(p, name)) + Substituted(p, pieces[1..])
  }

  function Value(p: Preset, key: string): string {
    match Resolve(p, key, [])
    case Ok(v) => v
    case Cycle(_) => ""
  }

  lemma {:induction false} ExpansionSubstitutes(p: Preset, pieces: seq<Piece>, chain: seq<string>)
    requires Expand(p, pieces, chain).Ok?
    ensures Expand(p, pieces, chain).value == Substituted(p, pieces)
    decreases |pieces|
  {
    if pieces != [] {
      if pieces[0].Env? { ShorterChainSameValue(p, pieces[0].name, chain, []); }
      ExpansionSubstitutes(p, pieces[1..], chain);
    }
  }

  /** Values solve the equations the preset states: a key's value is its text with the values of the keys
      it refers to. */
  lemma ValuesSolveEquations(p: Preset, key: string)
    requires !ReachesCycle(p, key)
    ensures Value(p, key) == Substituted(p, Pieces(p, key))
  {
    FailsExactlyOnCycles(p, key);
    if Pieces(p, key) != [] {
      if key !in Keys(p) { UnknownIsEmpty(p, key); }
      assert [] + [key] == [key];
      ExpansionSubstitutes(p, Pieces(p, key), [key]);
    }
  }

  /** `preset_environment`: all non-null entries of the preset, resolved; the first cycle is an error. */
  method PresetEnvironment(p: Preset) returns (r: Result<map<string, string>>)
    ensures r.Cycle? <==> exists key :: key in p.raw && p.raw[key].Some? && ReachesCycle(p, key)
    ensures r.Ok? ==> r.value == map key | key in p.raw && p.raw[key].Some? :: Value(p, key)
  {
    var todo, done: map<string, string> := p.raw.Keys, map[];
    while todo != {}
      invariant todo <= p.raw.Keys
      invariant forall key :: key in done <==> key in p.raw && key !in todo && p.raw[key].Some?
      invariant forall key :: key in done ==> done[key] == Value(p, key) && !ReachesCycle(p, key)
      decreases |todo|
    {
      var key :| key in todo;
      todo := todo - {key};
      if p.raw[key].Some? {
        var value := Resolve(p, key, []);
        FailsExactlyOnCycles(p, key);
        if value.Cycle? { return Cycle(value.path); }
        done := done[key := value.value];
      }
    }
    r := Ok(done);
  }

  // ----- What the macros read -----

  lemma NamesEnd(name: string, rest: string)
    requires '}' !in name
    ensures NameLength(name + "}" + rest) == |name|
  {
    if name == "" {
      assert ("" + "}" + rest)[0] == '}';
    } else {
      assert (name + "}" + rest)[1..] == name[1..] + "}" + rest;
      NamesEnd(name[1..], rest);
    }
  }

  lemma ReferenceFound(prefix: string, name: string, rest: string)
    requires name != "" && '}' !in name
    ensures ReferenceAt(prefix + name + "}" + rest, prefix) == Some(name)
  {
    var s, tail := prefix + name + "}" + rest, name + "}" + rest;
    assert s == prefix + tail;
    assert s[..|prefix|] == prefix && s[|prefix|..] == tail;
    NamesEnd(name, rest);
    assert tail[..|name|] == name;
  }

  /** A reference to the environment is read up to the first closing brace. */
  lemma EnvironmentRead(name: string, rest: string)
    requires name != "" && '}' !in name
    ensures Parse("$env{" + name + "}" + rest) == [Env(name)] + Parse(rest)
  {
    var s := "$env{" + name + "}" + rest;
    ReferenceFound("$env{", name, rest);
    assert s[|"$env{"| + |name| + 1..] == rest;
  }

  /** So is one to the parent environment. */
  lemma ParentRead(name: string, rest: string)
    requires name != "" && '}' !in name
    ensures Parse("$penv{" + name + "}" + rest) == [Parent(name)] + Parse(rest)
  {
    var s := "$penv{" + name + "}" + rest;
    ReferenceFound("$penv{", name, rest);
    assert s[1] == 'p' && s[..|"$env{"|][1] == 'p' && "$env{"[1] == 'e';
    assert s[|"$penv{"| + |name| + 1..] == rest;
  }

  /** Any other text is read as it stands, one character at a time. */
  lemma TextRead(s: string)
    requires s != ""
    requires forall name, rest :: name != "" && '}' !in name ==>
               s != "$env{" + name + "}" + rest && s != "$penv{" + name + "}" + rest
    ensures Parse(s) == [Text(s[0])] + Parse(s[1..])
  {
    if ReferenceAt(s, ENV).Some? { ReferenceText(s, ENV); }
    if ReferenceAt(s, PENV).Some? { ReferenceText(s, PENV); }
  }

  lemma FirstApart(plain: string, s: string)
    requires plain != ""
    ensures plain + s == [plain[0]] + (plain[1..] + s)
  {
    assert plain == [plain[0]] + plain[1..];
  }

  lemma FirstBack(plain: string, s: string)
    requires plain != ""
    ensures [plain[0]] + (plain[1..] + s) == plain + s
  {
    FirstApart(plain, s);
  }

  lemma SubstitutedCons(p: Preset, piece: Piece, pieces: seq<Piece>)
    ensures Substituted(p, [piece] + pieces) == Substituted(p, [piece]) + Substituted(p, pieces)
  {
    assert ([piece] + pieces)[1..] == pieces && [piece][1..] == [];
  }

  lemma PlainCharacter(p: Preset, c: char, s: string)
    requires c != '$'
    ensures Substituted(p, Parse([c] + s)) == [c] + Substituted(p, Parse(s))
  {
    assert ([c] + s)[1..] == s && ([c] + s)[0] == c;
    TextRead([c] + s);
    SubstitutedCons(p, Text(c), Parse(s));
  }

  lemma {:induction false} PlainSubstituted(p: Preset, plain: string, s: string)
    requires '$' !in plain
    ensures Substituted(p, Parse(plain + s)) == plain + Substituted(p, Parse(s))
  {
    if plain == "" {
      assert plain + s == s;
    } else {
      FirstApart(plain, s);
      PlainCharacter(p, plain[0], plain[1..] + s);
      PlainSubstituted(p, plain[1..], s);
      FirstBack(plain, Substituted(p, Parse(s)));
    }
  }

  lemma CharacterKept(c: char, s: string, old_: string, new_: string)
    requires old_ != "" && old_[0] != c
    ensures ReplaceAll([c] + s, old_, new_) == [c] + ReplaceAll(s, old_, new_)
  {
    var t := [c] + s;
    assert t[1..] == s && t[0] == c;
    if |old_| <= |t| {
      assert t[..|old_|][0] == c;
    } else {
      ShortKept(s, old_, new_);
    }
  }

  lemma ShortKept(s: string, old_: string, new_: string)
    requires |s| < |old_|
    ensures ReplaceAll(s, old_, new_) == s
  {
  }

  lemma {:induction false} PlainKept(plain: string, s: string, old_: string, new_: string)
    requires '$' !in plain && old_ != "" && old_[0] == '$'
    ensures ReplaceAll(plain + s, old_, new_) == plain + ReplaceAll(s, old_, new_)
  {
    if plain == "" {
      assert plain + s == s;
    } else {
      FirstApart(plain, s);
      CharacterKept(plain[0], plain[1..] + s, old_, new_);
      PlainKept(plain[1..], s, old_, new_);
      FirstBack(plain, ReplaceAll(s, old_, new_));
    }
  }

  lemma ReplacedFirst(s: string, old_: string, new_: string)
    requires old_ != ""
    ensures ReplaceAll(old_ + s, old_, new_) == new_ + ReplaceAll(s, old_, new_)
  {
    assert (old_ + s)[..|old_|] == old_ && (old_ + s)[|old_|..] == s;
  }

  lemma ReplacedNothing(plain: string, old_: string, new_: string)
    requires '$' !in plain && old_ != "" && old_[0] == '$'
    ensures ReplaceAll(plain, old_, new_) == plain
  {
    assert plain + "" == plain;
    PlainKept(plain, "", old_, new_);
  }

  lemma PlainValue(p: Preset, plain: string)
    requires '$' !in plain
    ensures Substituted(p, Parse(plain)) == plain
  {
    assert plain + "" == plain;
    PlainSubstituted(p, plain, "");
  }

  lemma OtherMacroKept(prefix: string, rest: string, n: nat, old_: string, new_: string)
    requires '$' !in rest && n < |prefix| && n < |old_| && prefix[n] != old_[n] && old_[0] == '$'
    requires prefix[0] == '$' && '$' !in prefix[1..]
    ensures ReplaceAll(prefix + rest, old_, new_) == prefix + rest
  {
    var s := prefix + rest;
    assert s[1..] == prefix[1..] + rest && s[0] == prefix[0];
    if |old_| <= |s| { assert s[..|old_|][n] == prefix[n]; }
    ReplacedNothing(s[1..], old_, new_);
    assert s == [s[0]] + s[1..];
  }

  /** A reference survives the built-in macros, whose braces follow the dollar sign at once. */
  lemma ReferenceKept(before: string, prefix: string, after: string, old_: string, new_: string)
    requires '$' !in before && '$' !in after && prefix in {"$env{", "$penv{"}
      && old_ in {"${sourceDir}", "${presetName}"}
    ensures ReplaceAll(before + (prefix + after), old_, new_) == before + (prefix + after)
  {
    PlainKept(before, prefix + after, old_, new_);
    assert prefix[1..] in {"env{", "penv{"};
    OtherMacroKept(prefix, after, 1, old_, new_);
  }

  lemma ReferenceValue(p: Preset, key: string, before: string, prefix: string, after: string)
    requires key in p.raw && p.raw[key] == Some(before + (prefix + after)) && prefix in {"$env{", "$penv{"}
      && '$' !in before && '$' !in after && !ReachesCycle(p, key)
    ensures Value(p, key) == before + Substituted(p, Parse(prefix + after))
  {
    ReferenceKept(before, prefix, after, "${sourceDir}", p.sourceDir);
    ReferenceKept(before, prefix, after, "${presetName}", p.name);
    ValuesSolveEquations(p, key);
    PlainSubstituted(p, before, prefix + after);
  }

  lemma ReferenceApart(before: string, prefix: string, name: string, after: string)
    ensures before + prefix + name + "}" + after == before + (prefix + (name + "}" + after))
    ensures prefix + (name + "}" + after) == prefix + name + "}" + after
  {
  }

  lemma EnvironmentSubstituted(p: Preset, name: string, after: string)
    requires name != "" && '}' !in name && '$' !in after
    ensures Substituted(p, Parse("$env{" + name + "}" + after)) == Value(p, name) + after
  {
    EnvironmentRead(name, after);
    SubstitutedCons(p, Env(name), Parse(after));
    PlainValue(p, after);
  }

  lemma ParentSubstituted(p: Preset, name: string, after: string)
    requires name != "" && '}' !in name && '$' !in after
    ensures Substituted(p, Parse("$penv{" + name + "}" + after)) ==
      (if name in p.parent then p.parent[name] else "") + after
  {
    ParentRead(name, after);
    SubstitutedCons(p, Parent(name), Parse(after));
    PlainValue(p, after);
  }

  /** An entry that refers to another key is its text with that key's value in place of the macro. */
  lemma ReadsEnvironment(p: Preset, key: string, before: string, name: string, after: string)
    requires key in p.raw && p.raw[key] == Some(before + "$env{" + name + "}" + after)
    requires '$' !in before && '$' !in after && '$' !in name && '}' !in name && name != "" && !ReachesCycle(p, key)
    ensures Value(p, key) == before + (Value(p, name) + after)
  {
    ReferenceApart(before, "$env{", name, after);
    ReferenceValue(p, key, before, "$env{", name + "}" + after);
    EnvironmentSubstituted(p, name, after);
  }

  /** One that refers to the parent has the inherited value there, or nothing, whatever its own entries. */
  lemma ReadsParent(p: Preset, key: string, before: string, name: string, after: string)
    requires key in p.raw && p.raw[key] == Some(before + "$penv{" + name + "}" + after)
    requires '$' !in before && '$' !in after && '$' !in name && '}' !in name && name != "" && !ReachesCycle(p, key)
    ensures Value(p, key) == before + ((if name in p.parent then p.parent[name] else "") + after)
  {
    ReferenceApart(before, "$penv{", name, after);
    ReferenceValue(p, key, before, "$penv{", name + "}" + after);
    ParentSubstituted(p, name, after);
  }

  lemma {:induction false} PlainPieces(plain: string, piece: Piece)
    requires '$' !in plain && piece in Parse(plain)
    ensures piece.Text?
  {
    TextRead(plain);
    if piece != Text(plain[0]) { PlainPieces(plain[1..], piece); }
  }

  lemma PlainResolves(p: Preset, key: string)
    requires '$' !in Source(p, key)
    ensures Resolve(p, key, []) == Ok(Source(p, key))
  {
    if Resolve(p, key, []).Cycle? {
      FailsExactlyOnCycles(p, key);
      var walk :| Walk(p, walk) && walk[0] == key && Repeats(walk);
      assert Refers(p, walk[0], walk[1]);
      PlainPieces(Source(p, key), Env(walk[1]));
    } else {
      FailsExactlyOnCycles(p, key);
      ValuesSolveEquations(p, key);
      PlainValue(p, Source(p, key));
    }
  }

  lemma BuiltInReplaced(a: string, macro: string, b: string, value: string)
    requires '$' !in a && macro != "" && macro[0] == '$'
    ensures ReplaceAll(a + (macro + b), macro, value) == a + (value + ReplaceAll(b, macro, value))
  {
    PlainKept(a, macro + b, macro, value);
    ReplacedFirst(b, macro, value);
  }

  /** The built-in macros stand for the source directory and the preset's name. */
  lemma ReadsBuiltIns(p: Preset, key: string, a: string, b: string)
    requires key in p.raw && '$' !in a && '$' !in b && '$' !in p.sourceDir && '$' !in p.name
    ensures p.raw[key] == Some(a + "${sourceDir}" + b) ==> Resolve(p, key, []) == Ok(a + p.sourceDir + b)
    ensures p.raw[key] == Some(a + "${presetName}" + b) ==> Resolve(p, key, []) == Ok(a + p.name + b)
  {
    ReplacedNothing(b, "${sourceDir}", p.sourceDir);
    ReplacedNothing(b, "${presetName}", p.name);
    if p.raw[key] == Some(a + "${sourceDir}" + b) {
      assert a + "${sourceDir}" + b == a + ("${sourceDir}" + b) && a + p.sourceDir + b == a + (p.sourceDir + b);
      BuiltInReplaced(a, "${sourceDir}", b, p.sourceDir);
      ReplacedNothing(a + p.sourceDir + b, "${presetName}", p.name);
      PlainResolves(p, key);
    }
    if p.raw[key] == Some(a + "${presetName}" + b) {
      assert a + "${presetName}" + b == a + ("${presetName}" + b) && a + p.name + b == a + (p.name + b);
      PlainKept(a, "${presetName}" + b, "${sourceDir}", p.sourceDir);
      OtherMacroKept("${presetName}", b, 2, "${sourceDir}", p.sourceDir);
      BuiltInReplaced(a, "${presetName}", b, p.name);
      PlainResolves(p, key);
    }
  }

  /** A preset's own entry comes before the inherited one; a null entry is empty even so. */
  lemma OwnEntryFirst(p: Preset, key: string, plain: string)
    requires '$' !in plain
    ensures key in p.raw && p.raw[key] == Some(plain) ==> Resolve(p, key, []) == Ok(plain)
    ensures key in p.raw && p.raw[key] == None ==> Resolve(p, key, []) == Ok("")
    ensures key !in p.raw && key in p.parent && p.parent[key] == plain ==> Resolve(p, key, []) == Ok(plain)
    ensures key !in p.raw && key !in p.parent ==> Resolve(p, key, []) == Ok("")
  {
    if Source(p, key) == plain || Source(p, key) == "" { PlainResolves(p, key); }
    ReplacedNothing(plain, "${sourceDir}", p.sourceDir);
    ReplacedNothing(plain, "${presetName}", p.name);
  }
}
