/** Regenerating .env: the printer that writes it, the reader that carries an
    operator's values over, and what survives the round trip. */
module EnvFile {
  import opened Prelude
  import opened Text
  import opened TextLaws

  type Env = map<string, string>

  /** A written value is put together from fixed text, which project.json decides,
      and values the existing file is asked for first. */
  datatype Piece = Fixed(text: string) | Kept(name: string, default: string)

  datatype Line = Note(text: string) | Gap | Assign(name: string, value: seq<Piece>)

  // ---------------------------------------------------------------------
  // Reading
  // ---------------------------------------------------------------------

  /** A blank line, a comment or a line without '=' says nothing. */
  function ReadLine(raw: string): Option<(string, string)> {
    var line := Trim(raw);
    if line == "" || line[0] == '#' then None
    else
      var (name, text, ok) := Cut(line, '=');
      if ok then Some((Trim(name), Trim(text))) else None
  }

  /** Line by line, a later entry replacing an earlier one of the same name. */
  function ReadLines(lines: seq<string>): Env {
    if lines == [] then map[]
    else match ReadLine(Last(lines))
      case None => ReadLines(Init(lines))
      case Some(entry) => ReadLines(Init(lines))[entry.0 := entry.1]
  }

  /** A file that cannot be read is an empty one. */
  function Read(file: Option<string>): Env {
    match file case None => map[] case Some(data) => ReadLines(Split(data, '\n'))
  }

  method ParseEnvFile(file: Option<string>) returns (out: Env)
    ensures out == Read(file)
  {
    hide Split, Trim, Cut;
    out := map[];
    if file.None? {
      return;
    }
    var lines := Split(file.value, '\n');
    for i := 0 to |lines|
      invariant out == ReadLines(lines[..i])
    {
      assert lines[..i + 1] == lines[..i] + [lines[i]];
      var line := Trim(lines[i]);
      if line == "" || line[0] == '#' {
        continue;
      }
      var (k, v, ok) := Cut(line, '=');
      if !ok {
        continue;
      }
      out := out[Trim(k) := Trim(v)];
    }
    assert lines[..|lines|] == lines;
  }

  /** The existing value, unless there is none or it is empty. */
  function Keep(env: Env, name: string, default: string): string {
    if name in env && env[name] != "" then env[name] else default
  }

  // ---------------------------------------------------------------------
  // The four credentials
  // ---------------------------------------------------------------------

  datatype Secrets = Secrets(adminPassword: string, clientSecret: string,
                             seedUserPassword: string, adminClientSecret: string)

  const DefaultSecrets := Secrets("admin", "saas-backend-secret", "password", "saas-backend-admin-secret")

  const KEYCLOAK_ADMIN_PASSWORD := "KEYCLOAK_ADMIN_PASSWORD"
  const KEYCLOAK_CLIENT_SECRET := "KEYCLOAK_CLIENT_SECRET"
  const SEED_USER_PASSWORD := "SEED_USER_PASSWORD"
  const KEYCLOAK_ADMIN_CLIENT_SECRET := "KEYCLOAK_ADMIN_CLIENT_SECRET"

  lemma FourNames()
    ensures KEYCLOAK_ADMIN_PASSWORD != KEYCLOAK_CLIENT_SECRET
    ensures KEYCLOAK_ADMIN_PASSWORD != SEED_USER_PASSWORD
    ensures KEYCLOAK_ADMIN_PASSWORD != KEYCLOAK_ADMIN_CLIENT_SECRET
    ensures KEYCLOAK_CLIENT_SECRET != SEED_USER_PASSWORD
    ensures KEYCLOAK_CLIENT_SECRET != KEYCLOAK_ADMIN_CLIENT_SECRET
    ensures SEED_USER_PASSWORD != KEYCLOAK_ADMIN_CLIENT_SECRET
  {
    assert |KEYCLOAK_ADMIN_PASSWORD| == 23 && |KEYCLOAK_CLIENT_SECRET| == 22;
    assert |SEED_USER_PASSWORD| == 18 && |KEYCLOAK_ADMIN_CLIENT_SECRET| == 28;
  }

  function SecretsIn(env: Env): Secrets {
    Secrets(Keep(env, KEYCLOAK_ADMIN_PASSWORD, DefaultSecrets.adminPassword),
            Keep(env, KEYCLOAK_CLIENT_SECRET, DefaultSecrets.clientSecret),
            Keep(env, SEED_USER_PASSWORD, DefaultSecrets.seedUserPassword),
            Keep(env, KEYCLOAK_ADMIN_CLIENT_SECRET, DefaultSecrets.adminClientSecret))
  }

  /** Each credential is what the file says, or its placeholder when the file has none or
      an empty one. */
  lemma CredentialsAre(env: Env)
    ensures var s := SecretsIn(env);
            && s.adminPassword ==
               (if "KEYCLOAK_ADMIN_PASSWORD" in env && env["KEYCLOAK_ADMIN_PASSWORD"] != ""
                then env["KEYCLOAK_ADMIN_PASSWORD"] else "admin")
            && s.clientSecret ==
               (if "KEYCLOAK_CLIENT_SECRET" in env && env["KEYCLOAK_CLIENT_SECRET"] != ""
                then env["KEYCLOAK_CLIENT_SECRET"] else "saas-backend-secret")
            && s.seedUserPassword ==
               (if "SEED_USER_PASSWORD" in env && env["SEED_USER_PASSWORD"] != ""
                then env["SEED_USER_PASSWORD"] else "password")
            && s.adminClientSecret ==
               (if "KEYCLOAK_ADMIN_CLIENT_SECRET" in env && env["KEYCLOAK_ADMIN_CLIENT_SECRET"] != ""
                then env["KEYCLOAK_ADMIN_CLIENT_SECRET"] else "saas-backend-admin-secret")
  {
  }

  lemma OneMoreName(seen: Env, k: string, v: string, name: string, default: string)
    requires k !in seen
    ensures Keep(seen[k := v], name, default) == if name == k && v != "" then v else Keep(seen, name, default)
    ensures Keep(map[], name, default) == default
  {
  }

  /** The names are visited in any order; each credential ends as the file's
      non-empty value or its placeholder. */
  method LoadSecrets(env: Env) returns (s: Secrets)
    ensures s == SecretsIn(env)
  {
    hide Keep;
    FourNames();
    s := DefaultSecrets;
    var rest := env.Keys;
    ghost var seen: Env := map[];
    OneMoreName(seen, "", "", KEYCLOAK_ADMIN_PASSWORD, DefaultSecrets.adminPassword);
    OneMoreName(seen, "", "", KEYCLOAK_CLIENT_SECRET, DefaultSecrets.clientSecret);
    OneMoreName(seen, "", "", SEED_USER_PASSWORD, DefaultSecrets.seedUserPassword);
    OneMoreName(seen, "", "", KEYCLOAK_ADMIN_CLIENT_SECRET, DefaultSecrets.adminClientSecret);
    while rest != {}
      invariant rest <= env.Keys
      invariant seen == env - rest
      invariant s == SecretsIn(seen)
      decreases |rest|
    {
      var k := PickElement(rest);
      rest := rest - {k};
      var v := env[k];
      OneMoreName(seen, k, v, KEYCLOAK_ADMIN_PASSWORD, DefaultSecrets.adminPassword);
      OneMoreName(seen, k, v, KEYCLOAK_CLIENT_SECRET, DefaultSecrets.clientSecret);
      OneMoreName(seen, k, v, SEED_USER_PASSWORD, DefaultSecrets.seedUserPassword);
      OneMoreName(seen, k, v, KEYCLOAK_ADMIN_CLIENT_SECRET, DefaultSecrets.adminClientSecret);
      seen := seen[k := v];
      if v == "" {
        continue;
      }
      if k == KEYCLOAK_ADMIN_PASSWORD {
        s := s.(adminPassword := v);
      } else if k == KEYCLOAK_CLIENT_SECRET {
        s := s.(clientSecret := v);
      } else if k == SEED_USER_PASSWORD {
        s := s.(seedUserPassword := v);
      } else if k == KEYCLOAK_ADMIN_CLIENT_SECRET {
        s := s.(adminClientSecret := v);
      }
    }
    assert env - rest == env;
  }

  // ---------------------------------------------------------------------
  // Writing
  // ---------------------------------------------------------------------

  function PieceText(p: Piece, env: Env): string {
    match p case Fixed(t) => t case Kept(n, d) => Keep(env, n, d)
  }

  function ValueText(value: seq<Piece>, env: Env): string {
    if value == [] then "" else PieceText(value[0], env) + ValueText(value[1..], env)
  }

  function LineText(l: Line, env: Env): string {
    match l
    case Note(t) => "#" + t
    case Gap => ""
    case Assign(n, v) => n + ['='] + ValueText(v, env)
  }

  function Render(lines: seq<Line>, env: Env): string {
    if lines == [] then "" else LineText(lines[0], env) + ['\n'] + Render(lines[1..], env)
  }

  lemma {:induction false} RenderNext(lines: seq<Line>, i: nat, env: Env)
    requires i < |lines|
    ensures Render(lines[..i + 1], env) == Render(lines[..i], env) + LineText(lines[i], env) + ['\n']
  {
    hide LineText;
    if i == 0 {
      assert lines[..1][1..] == [] && lines[..0] == [];
    } else {
      RenderNext(lines[1..], i - 1, env);
      assert lines[..i + 1][1..] == lines[1..][..i] && lines[..i][1..] == lines[1..][..i - 1];
    }
  }

  /** Line after line into one buffer. */
  method WriteEnv(lines: seq<Line>, env: Env) returns (b: string)
    ensures b == Render(lines, env)
  {
    hide LineText, Render;
    b := "";
    assert Render(lines[..0], env) == "" by { NothingRendered(env); }
    for i := 0 to |lines|
      invariant b == Render(lines[..i], env)
    {
      RenderNext(lines, i, env);
      b := b + LineText(lines[i], env) + ['\n'];
    }
    assert lines[..|lines|] == lines;
  }

  lemma NothingRendered(env: Env)
    ensures Render([], env) == ""
  {
  }

  /** The whole regeneration: read what is there, write the layout over it. */
  function Regenerate(lines: seq<Line>, file: Option<string>): string {
    Render(lines, Read(file))
  }

  // ---------------------------------------------------------------------
  // What a layout must satisfy
  // ---------------------------------------------------------------------

  predicate OneLine(s: string) { '\n' !in s }

  predicate GoodName(n: string) {
    n != "" && Trimmed(n) && n[0] != '#' && forall c :: c in n ==> c != '=' && c != '\n'
  }

  predicate GoodPiece(p: Piece) {
    match p case Fixed(t) => OneLine(t) case Kept(_, d) => OneLine(d) && Trimmed(d)
  }

  predicate GoodLine(l: Line) {
    match l
    case Note(t) => OneLine(t)
    case Gap => true
    case Assign(n, v) => GoodName(n) && forall p :: p in v ==> GoodPiece(p)
  }

  predicate Owns(lines: seq<Line>, n: string, d: string) { Assign(n, [Kept(n, d)]) in lines }

  /** Printable lines under distinct names, and every value a line asks the file
      for is also written back under its own name. */
  ghost predicate GoodLayout(lines: seq<Line>) {
    && (forall l :: l in lines ==> GoodLine(l))
    && UniqueNames(lines)
    && (forall l, n, d :: l in lines && l.Assign? && Kept(n, d) in l.value ==> Owns(lines, n, d))
  }

  ghost predicate UniqueNames(lines: seq<Line>) {
    forall i, j :: 0 <= i < j < |lines| && lines[i].Assign? && lines[j].Assign? ==> lines[i].name != lines[j].name
  }

  /** What a reader only ever hands back: one line each, nothing to trim. */
  ghost predicate Clean(env: Env) {
    forall k :: k in env ==> OneLine(env[k]) && Trimmed(env[k])
  }

  lemma {:induction false} SplitPieces(s: string, sep: char)
    ensures forall p :: p in Split(s, sep) ==> sep !in p
    decreases |s|
  {
    var (a, b, found) := Cut(s, sep);
    if found { SplitPieces(b, sep); }
  }

  lemma ReadLineIsClean(raw: string)
    requires OneLine(raw) && ReadLine(raw).Some?
    ensures OneLine(ReadLine(raw).value.1) && Trimmed(ReadLine(raw).value.1)
  {
    hide Trim, Cut;
    TrimTrims(raw);
    TrimTrims(Cut(Trim(raw), '=').1);
  }

  lemma {:induction false} ReadLinesAreClean(lines: seq<string>)
    requires forall l :: l in lines ==> OneLine(l)
    ensures Clean(ReadLines(lines))
  {
    hide ReadLine, OneLine, Trimmed;
    if lines != [] {
      ReadLinesAreClean(Init(lines));
      assert Last(lines) in lines;
      if ReadLine(Last(lines)).Some? { ReadLineIsClean(Last(lines)); }
    }
  }

  lemma ReadIsClean(file: Option<string>)
    ensures Clean(Read(file))
  {
    hide Split, ReadLines;
    if file.Some? {
      SplitPieces(file.value, '\n');
      ReadLinesAreClean(Split(file.value, '\n'));
    }
  }

  // ---------------------------------------------------------------------
  // Reading back what was written
  // ---------------------------------------------------------------------

  /** What the reader finds in a rendered layout. */
  function Written(lines: seq<Line>, env: Env): Env {
    if lines == [] then map[]
    else match lines[0]
      case Assign(n, v) => map[n := Trim(ValueText(v, env))] + Written(lines[1..], env)
      case _ => Written(lines[1..], env)
  }

  lemma {:induction false} ReadLinesAppend(a: seq<string>, b: seq<string>)
    ensures ReadLines(a + b) == ReadLines(a) + ReadLines(b)
  {
    hide ReadLine;
    if b == [] {
      assert a + b == a;
    } else {
      ReadLinesAppend(a, Init(b));
      assert Init(a + b) == a + Init(b);
      assert Last(a + b) == Last(b);
    }
  }

  lemma ReadLinesOne(line: string)
    ensures ReadLines([line]) == match ReadLine(line) { case None => map[] case Some(entry) => map[entry.0 := entry.1] }
  {
    assert Init([line]) == [] && Last([line]) == line;
  }

  lemma TrimmedFront(s: string)
    requires s != "" && !IsSpace(s[0])
    ensures Trim(s) != "" && Trim(s)[0] == s[0]
  {
    TrimRightAfter([s[0]], s[1..]);
    assert s == [s[0]] + s[1..];
  }

  lemma AssignmentReads(n: string, v: string)
    requires GoodName(n)
    ensures ReadLine(n + ['='] + v) == Some((n, Trim(v)))
  {
    var line := n + ['='] + v;
    assert TrimLeft(line) == line;
    TrimRightAfter(n + ['='], v);
    TrimmedFront(line);
    TrimTrims(n);
    hide Trim, TrimRight, IsSpace;
    CutFirst(n, TrimRight(v), '=');
    TrimAfterTrimRight(v);
  }

  lemma LineReads(l: Line, env: Env)
    requires GoodLine(l)
    ensures ReadLine(LineText(l, env)) ==
            if l.Assign? then Some((l.name, Trim(ValueText(l.value, env)))) else None
  {
    hide Trim, ValueText, GoodName;
    match l
    case Note(t) => TrimmedFront("#" + t);
    case Gap => TrimTrims("");
    case Assign(n, v) => AssignmentReads(n, ValueText(v, env));
  }

  lemma {:induction false} ValueIsOneLine(value: seq<Piece>, env: Env)
    requires Clean(env) && forall p :: p in value ==> GoodPiece(p)
    ensures OneLine(ValueText(value, env))
  {
    hide Trimmed;
    if value != [] {
      assert value[0] in value;
      ValueIsOneLine(value[1..], env);
    }
  }

  lemma LineIsOneLine(l: Line, env: Env)
    requires Clean(env) && GoodLine(l)
    ensures OneLine(LineText(l, env))
  {
    hide ValueText, GoodPiece, Clean, Trimmed;
    if l.Assign? { ValueIsOneLine(l.value, env); }
  }

  lemma {:induction false} ReadOfRender(lines: seq<Line>, env: Env)
    requires Clean(env) && forall l :: l in lines ==> GoodLine(l)
    ensures ReadLines(Split(Render(lines, env), '\n')) == Written(lines, env)
  {
    hide Split, ReadLine, LineText, GoodLine, Clean, ValueText, Trim;
    if lines == [] {
      assert Split("", '\n') == [""] by { EmptyText(); }
      ReadLinesOne("");
      assert ReadLine("").None? by { EmptyText(); }
    } else {
      assert lines[0] in lines;
      var text, rest := LineText(lines[0], env), Render(lines[1..], env);
      LineIsOneLine(lines[0], env);
      SplitFirst(text, rest, '\n');
      ReadLinesAppend([text], Split(rest, '\n'));
      ReadLinesOne(text);
      LineReads(lines[0], env);
      ReadOfRender(lines[1..], env);
    }
  }

  lemma EmptyText()
    ensures Split("", '\n') == [""] && ReadLine("").None?
  {
  }

  lemma {:induction false} WrittenNames(lines: seq<Line>, env: Env, n: string)
    ensures n in Written(lines, env) <==> exists l :: l in lines && l.Assign? && l.name == n
  {
    hide Trim, ValueText;
    if lines != [] {
      WrittenNames(lines[1..], env, n);
      assert lines == [lines[0]] + lines[1..];
    }
  }

  lemma {:induction false} WrittenValue(lines: seq<Line>, env: Env, l: Line)
    requires UniqueNames(lines) && l in lines && l.Assign?
    ensures l.name in Written(lines, env)
    ensures Written(lines, env)[l.name] == Trim(ValueText(l.value, env))
  {
    hide Trim, ValueText;
    WrittenNames(lines, env, l.name);
    var rest := lines[1..];
    WrittenNames(rest, env, l.name);
    if l in rest {
      WrittenValue(rest, env, l);
    } else {
      assert l == lines[0];
      assert forall m :: m in rest && m.Assign? ==> m.name != l.name;
    }
  }

  /** A regenerated file says exactly what its layout says: each assigned name
      once, with its value; anything else the old file held is gone. */
  lemma RegeneratedFileReads(lines: seq<Line>, file: Option<string>)
    requires GoodLayout(lines)
    ensures var env := Read(Some(Regenerate(lines, file)));
            && (forall n :: n in env <==> exists l :: l in lines && l.Assign? && l.name == n)
            && (forall l :: l in lines && l.Assign? ==>
                  l.name in env && env[l.name] == Trim(ValueText(l.value, Read(file))))
  {
    hide Trim, ValueText, Split, ReadLines, Render, Clean, GoodLine, Owns, UniqueNames;
    var env := Read(file);
    ReadIsClean(file);
    ReadOfRender(lines, env);
    forall n ensures n in Written(lines, env) <==> exists l :: l in lines && l.Assign? && l.name == n {
      WrittenNames(lines, env, n);
    }
    forall l | l in lines && l.Assign?
      ensures l.name in Written(lines, env) && Written(lines, env)[l.name] == Trim(ValueText(l.value, env))
    {
      WrittenValue(lines, env, l);
    }
  }

  lemma OneKeptPiece(n: string, d: string, env: Env)
    ensures ValueText([Kept(n, d)], env) == Keep(env, n, d)
  {
    assert [Kept(n, d)][1..] == [];
  }

  lemma KeptIsTrimmed(lines: seq<Line>, file: Option<string>, n: string, d: string)
    requires GoodLayout(lines) && Owns(lines, n, d)
    ensures Trimmed(Keep(Read(file), n, d))
  {
    hide Read, UniqueNames, Trimmed;
    ReadIsClean(file);
    var l := Assign(n, [Kept(n, d)]);
    assert l in lines && GoodLine(l);
    assert Kept(n, d) in l.value && GoodPiece(Kept(n, d));
  }

  /** Write then read: a value the operator set is still set, to the same text;
      one that was missing or empty becomes the default. */
  lemma OperatorValuesSurvive(lines: seq<Line>, file: Option<string>, n: string, d: string)
    requires GoodLayout(lines) && Owns(lines, n, d)
    ensures var before, after := Read(file), Read(Some(Regenerate(lines, file)));
            && n in after && after[n] == Keep(before, n, d)
            && (n in before && before[n] != "" ==> after[n] == before[n])
            && (n !in before || before[n] == "" ==> after[n] == d)
  {
    hide Read, Regenerate, Trim, Trimmed, GoodLayout;
    RegeneratedFileReads(lines, file);
    KeptIsTrimmed(lines, file, n, d);
    OneKeptPiece(n, d, Read(file));
    TrimTrims(Keep(Read(file), n, d));
    assert Assign(n, [Kept(n, d)]) in lines;
  }

  /** A name project.json decides takes its value whatever the file said. */
  lemma DerivedValuesWin(lines: seq<Line>, file: Option<string>, n: string, t: string)
    requires GoodLayout(lines) && Assign(n, [Fixed(t)]) in lines
    ensures var after := Read(Some(Regenerate(lines, file)));
            n in after && after[n] == Trim(t)
  {
    hide Read, Regenerate, Trim, GoodLayout;
    RegeneratedFileReads(lines, file);
    assert [Fixed(t)][1..] == [];
    assert ValueText([Fixed(t)], Read(file)) == t;
    assert Assign(n, [Fixed(t)]).Assign?;
  }

  ghost predicate SameTexts(value: seq<Piece>, a: Env, b: Env) {
    forall p :: p in value ==> PieceText(p, a) == PieceText(p, b)
  }

  lemma {:induction false} SameValue(value: seq<Piece>, a: Env, b: Env)
    requires SameTexts(value, a, b)
    ensures ValueText(value, a) == ValueText(value, b)
  {
    hide PieceText;
    if value != [] {
      assert value[0] in value;
      SameValue(value[1..], a, b);
    }
  }

  lemma {:induction false} SameRender(lines: seq<Line>, a: Env, b: Env)
    requires forall l :: l in lines && l.Assign? ==> SameTexts(l.value, a, b)
    ensures Render(lines, a) == Render(lines, b)
  {
    hide ValueText, SameTexts;
    if lines != [] {
      assert lines[0] in lines;
      if lines[0].Assign? { SameValue(lines[0].value, a, b); }
      SameRender(lines[1..], a, b);
    }
  }

  /** Regenerating is a fixpoint after one run, whatever the file held before. */
  lemma RegenerationIsAFixpoint(lines: seq<Line>, file: Option<string>)
    requires GoodLayout(lines)
    ensures var once := Regenerate(lines, file); Regenerate(lines, Some(once)) == once
  {
    hide Read, Render, Keep, UniqueNames, GoodLine;
    var once := Regenerate(lines, file);
    forall l | l in lines && l.Assign? ensures SameTexts(l.value, Read(Some(once)), Read(file)) {
      forall p | p in l.value ensures PieceText(p, Read(Some(once))) == PieceText(p, Read(file)) {
        if p.Kept? {
          assert Kept(p.name, p.default) in l.value;
          OperatorValuesSurvive(lines, file, p.name, p.default);
          KeepsAgain(Read(file), Read(Some(once)), p.name, p.default);
        }
      }
    }
    SameRender(lines, Read(Some(once)), Read(file));
  }

  lemma KeepsAgain(before: Env, after: Env, n: string, d: string)
    requires n in after && after[n] == Keep(before, n, d)
    ensures Keep(after, n, d) == Keep(before, n, d)
  {
  }

  // ---------------------------------------------------------------------
  // Text of any kind, line breaks included
  // ---------------------------------------------------------------------

  lemma RenderMore(l: Line, rest: seq<Line>, env: Env)
    ensures Render([l] + rest, env) == LineText(l, env) + ['\n'] + Render(rest, env)
  {
    assert ([l] + rest)[1..] == rest;
  }

  lemma {:induction false} RenderAppend(a: seq<Line>, b: seq<Line>, env: Env)
    ensures Render(a + b, env) == Render(a, env) + Render(b, env)
  {
    hide LineText, Render;
    if a == [] {
      NothingRendered(env);
      assert a + b == b;
    } else {
      RenderAppend(a[1..], b, env);
      RenderMore(a[0], a[1..], env);
      RenderMore(a[0], a[1..] + b, env);
      assert a == [a[0]] + a[1..];
      assert a + b == [a[0]] + (a[1..] + b);
    }
  }

  /** What a file of this text says. */
  function Says(text: string): Env { ReadLines(Split(text, '\n')) }

  lemma NothingSaid()
    ensures Says("") == map[]
  {
    EmptyText();
    ReadLinesOne("");
  }

  lemma SaidAround(a: string, b: string)
    ensures Says(a + ['\n'] + b) == Says(a) + Says(b)
  {
    hide Split, ReadLines;
    SplitAround(a, b, '\n');
    ReadLinesAppend(Split(a, '\n'), Split(b, '\n'));
  }

  /** A file says what its lines say one after another, whatever their text. */
  lemma {:induction false} SaidInOrder(lines: seq<Line>, x: string, env: Env)
    ensures Says(Render(lines, env) + x) == Says(Render(lines, env)) + Says(x)
  {
    hide Says, Render, LineText;
    if lines == [] {
      NothingRendered(env);
      NothingSaid();
      assert "" + x == x;
    } else {
      var text, rest := LineText(lines[0], env), Render(lines[1..], env);
      RenderMore(lines[0], lines[1..], env);
      assert lines == [lines[0]] + lines[1..];
      assert Render(lines, env) + x == text + ['\n'] + (rest + x);
      SaidAround(text, rest);
      SaidAround(text, rest + x);
      SaidInOrder(lines[1..], x, env);
      MergeIsAssociative(Says(text), Says(rest), Says(x));
    }
  }

  lemma MergeIsAssociative(a: Env, b: Env, c: Env)
    ensures (a + b) + c == a + (b + c)
  {
  }

  lemma SaidLine(before: seq<Line>, l: Line, after: seq<Line>, env: Env)
    ensures Says(Render(before + ([l] + after), env)) ==
            Says(Render(before, env)) + Says(LineText(l, env)) + Says(Render(after, env))
  {
    hide Says, Render, LineText;
    var text, rest := LineText(l, env), Render(after, env);
    RenderAppend(before, [l] + after, env);
    RenderMore(l, after, env);
    SaidInOrder(before, text + ['\n'] + rest, env);
    SaidAround(text, rest);
    MergeIsAssociative(Says(Render(before, env)), Says(text), Says(rest));
  }

  lemma SaidAssignment(n: string, v: string)
    requires GoodName(n) && OneLine(v)
    ensures Says(n + ['='] + v) == map[n := Trim(v)]
  {
    var line := n + ['='] + v;
    assert OneLine(line);
    hide ReadLine, GoodName, Trim, OneLine, Split;
    AssignmentReads(n, v);
    ReadLinesOne(line);
    OneLineSplits(line);
  }

  lemma OneLineSplits(s: string)
    requires OneLine(s)
    ensures Split(s, '\n') == [s]
  {
    hide Split;
    NoSeparator(s, '\n');
  }

  lemma OwnLine(n: string, d: string, env: Env)
    requires GoodName(n) && OneLine(d) && Trimmed(d) && Clean(env)
    ensures Says(LineText(Assign(n, [Kept(n, d)]), env)) == map[n := Keep(env, n, d)]
  {
    OneKeptPiece(n, d, env);
    KeepIsClean(n, d, env);
    TrimTrims(Keep(env, n, d));
    hide Says, GoodName, Keep, Trim, Clean, OneLine, Trimmed;
    SaidAssignment(n, Keep(env, n, d));
  }

  lemma KeepIsClean(n: string, d: string, env: Env)
    requires OneLine(d) && Trimmed(d) && Clean(env)
    ensures OneLine(Keep(env, n, d)) && Trimmed(Keep(env, n, d))
  {
    hide OneLine, Trimmed;
  }

  /** When an operator's value survives, whatever text surrounds it: a reader finds the
      kept value if and only if the lines below its own, read as a file, do not say
      something else about the name. */
  lemma OperatorValueSurvivesIff(before: seq<Line>, n: string, d: string, after: seq<Line>, env: Env)
    requires GoodName(n) && OneLine(d) && Trimmed(d) && Clean(env)
    ensures var read := Says(Render(before + ([Assign(n, [Kept(n, d)])] + after), env));
            var below := Says(Render(after, env));
            && n in read
            && read[n] == (if n in below then below[n] else Keep(env, n, d))
            && (read[n] == Keep(env, n, d) <==> (n in below ==> below[n] == Keep(env, n, d)))
  {
    hide Says, Render, LineText, GoodName, Keep, Clean, OneLine, Trimmed;
    SaidLine(before, Assign(n, [Kept(n, d)]), after, env);
    OwnLine(n, d, env);
  }

  lemma DerivedLine(b: string, t: string, env: Env)
    requires GoodName(b)
    ensures Says(LineText(Assign(b, [Fixed(t)]), env)) ==
            map[b := Trim(Split(t, '\n')[0])] + ReadLines(Split(t, '\n')[1..])
  {
    OneFixedPiece(t, env);
    var pieces := Split(t, '\n');
    SplitPieces(t, '\n');
    assert OneLine(b + ['=']) && OneLine(pieces[0]);
    SplitAfter(b + ['='], t, '\n');
    hide Split, ReadLine, GoodName, Trim, OneLine;
    ReadLinesAppend([b + ['='] + pieces[0]], pieces[1..]);
    ReadLinesOne(b + ['='] + pieces[0]);
    AssignmentReads(b, pieces[0]);
  }

  lemma OneFixedPiece(t: string, env: Env)
    ensures ValueText([Fixed(t)], env) == t
  {
    assert [Fixed(t)][1..] == [];
  }

  /** What a file with one derived text of any kind says: its own name takes the first
      line of the text, and every further line of it is read as a line of the file. */
  lemma DerivedTextReads(before: seq<Line>, b: string, t: string, after: seq<Line>, env: Env)
    requires Clean(env) && GoodName(b) && forall l :: l in before + after ==> GoodLine(l)
    ensures Says(Render(before + ([Assign(b, [Fixed(t)])] + after), env)) ==
            Written(before, env) + (map[b := Trim(Split(t, '\n')[0])] + ReadLines(Split(t, '\n')[1..]))
            + Written(after, env)
  {
    assert forall l :: l in before || l in after ==> l in before + after;
    ReadOfRender(before, env);
    ReadOfRender(after, env);
    SaidIs(Render(before, env));
    SaidIs(Render(after, env));
    hide Says, Render, LineText, GoodName, GoodLine, Clean, Written, Trim, Split, ReadLines;
    SaidLine(before, Assign(b, [Fixed(t)]), after, env);
    DerivedLine(b, t, env);
  }

  lemma SaidIs(text: string)
    ensures Says(text) == ReadLines(Split(text, '\n'))
    ensures Says(text) == Read(Some(text))
  {
    hide ReadLines, Split;
  }

  /** Exactly when an operator's value survives a derived text further down: if and only
      if the further lines of that text do not say something else about the name. */
  lemma DerivedTextSparesIff(before: seq<Line>, b: string, t: string, after: seq<Line>, n: string, d: string, env: Env)
    requires Clean(env) && GoodName(b) && forall l :: l in before + after ==> GoodLine(l)
    requires UniqueNames(before) && Owns(before, n, d) && n != b
    requires forall l :: l in after && l.Assign? ==> l.name != n
    ensures var read := Says(Render(before + ([Assign(b, [Fixed(t)])] + after), env));
            var stray := ReadLines(Split(t, '\n')[1..]);
            && n in read
            && read[n] == (if n in stray then stray[n] else Keep(env, n, d))
            && (read[n] == Keep(env, n, d) <==> (n in stray ==> stray[n] == Keep(env, n, d)))
  {
    var own := Assign(n, [Kept(n, d)]);
    assert own in before + after && Kept(n, d) in own.value;
    assert OneLine(d) && Trimmed(d);
    KeepIsClean(n, d, env);
    TrimTrims(Keep(env, n, d));
    OneKeptPiece(n, d, env);
    hide Says, Render, GoodName, GoodLine, Clean, Written, Trim, Split, ReadLines, ValueText, Keep, OneLine, Trimmed,
         UniqueNames;
    DerivedTextReads(before, b, t, after, env);
    WrittenValue(before, env, own);
    WrittenNames(after, env, n);
  }

  /** The family that shows it: a break followed by an entry for the name. Unless the name
      is assigned again further down, that entry is the one a reader finds. */
  lemma LineBreakOverridesOperator(before: seq<Line>, b: string, x: string, n: string, y: string,
                                   after: seq<Line>, env: Env)
    requires Clean(env) && GoodName(b) && GoodName(n) && OneLine(x) && OneLine(y)
    requires forall l :: l in before + after ==> GoodLine(l)
    requires forall l :: l in after && l.Assign? ==> l.name != n
    ensures var read := Says(Render(before + ([Assign(b, [Fixed(x + ['\n'] + (n + ['='] + y))])] + after), env));
            n in read && read[n] == Trim(y)
  {
    var t := x + ['\n'] + (n + ['='] + y);
    SplitFirst(x, n + ['='] + y, '\n');
    assert Split(t, '\n')[1..] == Split(n + ['='] + y, '\n');
    SaidIs(n + ['='] + y);
    hide Says, Render, GoodName, GoodLine, Clean, Written, Trim, Split, ReadLines, OneLine;
    SaidAssignment(n, y);
    DerivedTextReads(before, b, t, after, env);
    WrittenNames(after, env, n);
  }
}
