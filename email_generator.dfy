/** The unique e-mail generator: a slug of the person's name and of the company's name,
    then the first address of `base`, `prefix1@...`, `prefix2@...`, ... that no user has.
    The user and company tables are passed in as sequences of rows. */
module EmailGenerator {
  import opened Common
  import opened Text
  import opened Numbers
  import opened Entities
  import Rows

  // ---------------------------------------------------------------------------------------
  // Character tables standing in for the Unicode database (Latin scripts only)
  // ---------------------------------------------------------------------------------------

  /** `UnicodeCategory.NonSpacingMark`, restricted to the combining diacritical marks block. */
  predicate IsNonSpacingMark(c: char) {
    '\U{0300}' <= c <= '\U{036F}'
  }

  /** `char.IsLetterOrDigit` for ASCII, Latin-1 and Latin Extended-A/B; other scripts count as
      neither letters nor digits. */
  predicate IsLetterOrDigit(c: char) {
    ('a' <= c <= 'z') || ('A' <= c <= 'Z') || ('0' <= c <= '9')
    || c == '\U{00AA}' || c == '\U{00B5}' || c == '\U{00BA}'
    || ('\U{00C0}' <= c <= '\U{00D6}') || ('\U{00D8}' <= c <= '\U{00F6}')
    || ('\U{00F8}' <= c <= '\U{024F}')
  }

  /** Canonical decomposition (normalization form D) of one character: the precomposed
      lower-case letters of Latin-1 split into a base letter and a combining mark, every other
      character stays as it is. */
  function Decompose(c: char): (r: string)
    ensures |r| == 1 || |r| == 2
    ensures |r| == 1 ==> r[0] == c
    ensures |r| == 2 ==> 'a' <= r[0] <= 'z' && IsNonSpacingMark(r[1])
    ensures c < '\U{00E0}' ==> r == [c]
  {
    if c == '\U{00E0}' then "a\U{0300}" else if c == '\U{00E1}' then "a\U{0301}"
    else if c == '\U{00E2}' then "a\U{0302}" else if c == '\U{00E3}' then "a\U{0303}"
    else if c == '\U{00E4}' then "a\U{0308}" else if c == '\U{00E5}' then "a\U{030A}"
    else if c == '\U{00E7}' then "c\U{0327}"
    else if c == '\U{00E8}' then "e\U{0300}" else if c == '\U{00E9}' then "e\U{0301}"
    else if c == '\U{00EA}' then "e\U{0302}" else if c == '\U{00EB}' then "e\U{0308}"
    else if c == '\U{00EC}' then "i\U{0300}" else if c == '\U{00ED}' then "i\U{0301}"
    else if c == '\U{00EE}' then "i\U{0302}" else if c == '\U{00EF}' then "i\U{0308}"
    else if c == '\U{00F1}' then "n\U{0303}"
    else if c == '\U{00F2}' then "o\U{0300}" else if c == '\U{00F3}' then "o\U{0301}"
    else if c == '\U{00F4}' then "o\U{0302}" else if c == '\U{00F5}' then "o\U{0303}"
    else if c == '\U{00F6}' then "o\U{0308}"
    else if c == '\U{00F9}' then "u\U{0300}" else if c == '\U{00FA}' then "u\U{0301}"
    else if c == '\U{00FB}' then "u\U{0302}" else if c == '\U{00FC}' then "u\U{0308}"
    else if c == '\U{00FD}' then "y\U{0301}" else if c == '\U{00FF}' then "y\U{0308}"
    else [c]
  }

  /** `Normalize(NormalizationForm.FormD)`, character by character. */
  function NormalizeD(s: string): string {
    if s == [] then [] else Decompose(s[0]) + NormalizeD(s[1..])
  }

  /** `Replace(" ", ".")`. */
  function ReplaceSpaces(s: string): (r: string)
    ensures |r| == |s|
    ensures forall i :: 0 <= i < |s| ==> r[i] == if s[i] == ' ' then '.' else s[i]
  {
    seq(|s|, i requires 0 <= i < |s| => if s[i] == ' ' then '.' else s[i])
  }

  /** The characters the slug keeps: letters, digits and '.', but no non-spacing mark. */
  predicate IsSlugChar(c: char) {
    !IsNonSpacingMark(c) && (IsLetterOrDigit(c) || c == '.')
  }

  /** `LimpiarTexto`: "sin-nombre" for a null or blank text, otherwise the lower-cased text with
      spaces turned into dots, decomposed, and filtered down to slug characters. */
  function LimpiarTexto(texto: Option<string>): (r: string)
    ensures IsNullOrWhiteSpace(texto) ==> r == "sin-nombre"
    ensures !IsNullOrWhiteSpace(texto) ==>
      forall i :: 0 <= i < |r| ==> (IsLetterOrDigit(r[i]) || r[i] == '.') && !IsNonSpacingMark(r[i])
  {
    if IsNullOrWhiteSpace(texto) then "sin-nombre"
    else Rows.Filter(NormalizeD(ReplaceSpaces(ToLower(texto.value))), IsSlugChar)
  }

  // ---------------------------------------------------------------------------------------
  // Properties of the slug
  // ---------------------------------------------------------------------------------------

  /** A character that lower-casing, the space replacement and decomposition all leave alone. */
  predicate Settled(c: char) {
    !IsUpper(c) && c != ' ' && Decompose(c) == [c]
  }

  /** Decomposing text without capitals or spaces yields settled characters and marks. */
  lemma {:induction false} NormalizeDSettles(s: string)
    requires forall i :: 0 <= i < |s| ==> !IsUpper(s[i]) && s[i] != ' '
    ensures forall j :: 0 <= j < |NormalizeD(s)| ==> Settled(NormalizeD(s)[j]) || IsNonSpacingMark(NormalizeD(s)[j])
  {
    if s != [] {
      NormalizeDSettles(s[1..]);
      var d := Decompose(s[0]);
      var n := NormalizeD(s);
      assert n == d + NormalizeD(s[1..]);
      forall j | 0 <= j < |n| ensures Settled(n[j]) || IsNonSpacingMark(n[j]) {
        if j < |d| {
          if |d| == 2 && j == 0 {
            assert Decompose(d[0]) == [d[0]];
          }
        } else {
          assert n[j] == NormalizeD(s[1..])[j - |d|];
        }
      }
    }
  }

  /** Decomposition leaves text made of settled characters unchanged. */
  lemma {:induction false} NormalizeDOfSettled(s: string)
    requires forall i :: 0 <= i < |s| ==> Decompose(s[i]) == [s[i]]
    ensures NormalizeD(s) == s
  {
    if s != [] {
      NormalizeDOfSettled(s[1..]);
      assert s == [s[0]] + s[1..];
    }
  }

  /** Filtering with a predicate every element satisfies keeps everything. */
  lemma {:induction false} FilterAll<R>(s: seq<R>, p: R -> bool)
    requires forall i :: 0 <= i < |s| ==> p(s[i])
    ensures Rows.Filter(s, p) == s
  {
    if s != [] {
      FilterAll(s[1..], p);
      assert s == [s[0]] + s[1..];
    }
  }

  /** Every character of a non-blank text's slug is settled. */
  lemma SlugSettled(t: string)
    requires !IsNullOrWhiteSpace(Some(t))
    ensures forall i :: 0 <= i < |LimpiarTexto(Some(t))| ==> Settled(LimpiarTexto(Some(t))[i])
  {
    var x := ReplaceSpaces(ToLower(t));
    NormalizeDSettles(x);
    var n := NormalizeD(x);
    var r := Rows.Filter(n, IsSlugChar);
    forall i | 0 <= i < |r| ensures Settled(r[i]) {
      var j :| 0 <= j < |n| && n[j] == r[i];
    }
  }

  /** Cleaning a slug again changes nothing (unless the slug is empty, which is blank). */
  lemma LimpiarTextoIdempotent(t: Option<string>)
    requires !IsNullOrWhiteSpace(t) && LimpiarTexto(t) != ""
    ensures LimpiarTexto(Some(LimpiarTexto(t))) == LimpiarTexto(t)
  {
    var r := LimpiarTexto(t);
    SlugSettled(t.value);
    assert !IsWhiteSpace(r[0]);
    assert ToLower(r) == r;
    assert ReplaceSpaces(r) == r;
    NormalizeDOfSettled(r);
    FilterAll(r, IsSlugChar);
  }

  predicate IsAsciiLetterOrDigit(c: char) {
    ('a' <= c <= 'z') || ('A' <= c <= 'Z') || ('0' <= c <= '9')
  }

  /** For plain ASCII names the slug is the lower-cased name with every space turned into a dot. */
  lemma SpacesBecomeDots(t: string)
    requires !IsNullOrWhiteSpace(Some(t))
    requires forall i :: 0 <= i < |t| ==> IsAsciiLetterOrDigit(t[i]) || t[i] == ' '
    ensures LimpiarTexto(Some(t)) == ReplaceSpaces(ToLower(t))
  {
    var x := ReplaceSpaces(ToLower(t));
    forall i | 0 <= i < |x| ensures Decompose(x[i]) == [x[i]] && IsSlugChar(x[i]) {
      AsciiStaysPlain(t[i]);
    }
    NormalizeDOfSettled(x);
    FilterAll(x, IsSlugChar);
  }

  /** An ASCII letter, digit or space, lower-cased and with a space turned into a dot, is a
      slug character that decomposition leaves alone. */
  lemma AsciiStaysPlain(c: char)
    requires IsAsciiLetterOrDigit(c) || c == ' '
    ensures var l := ToLowerChar(c); var x := if l == ' ' then '.' else l;
      Decompose(x) == [x] && IsSlugChar(x)
  {
  }

  /** A text of lower-case ASCII letters is its own slug. */
  lemma LowerAsciiSlug(t: string)
    requires t != [] && forall i :: 0 <= i < |t| ==> 'a' <= t[i] <= 'z'
    ensures LimpiarTexto(Some(t)) == t
  {
    assert !IsWhiteSpace(t[0]);
    SpacesBecomeDots(t);
    assert ToLower(t) == t;
    assert ReplaceSpaces(t) == t;
  }

  /** What one character of the text contributes to the slug. */
  function CharSlug(c: char): string {
    var l := ToLowerChar(c);
    Rows.Filter(Decompose(if l == ' ' then '.' else l), IsSlugChar)
  }

  /** The slug of a text taken character by character. */
  function SlugChars(t: string): string {
    if t == [] then [] else CharSlug(t[0]) + SlugChars(t[1..])
  }

  /** The cleaning steps all work character by character, so a non-blank text's slug is the
      concatenation of what its characters contribute. */
  lemma SlugByCharacter(t: string)
    requires !IsNullOrWhiteSpace(Some(t))
    ensures LimpiarTexto(Some(t)) == SlugChars(t)
  {
    CleanedByCharacter(t);
  }

  /** Lower-casing and replacing spaces take the first character on its own. */
  lemma LoweredFirst(t: string)
    requires t != []
    ensures var l := ToLowerChar(t[0]);
      ReplaceSpaces(ToLower(t)) == [if l == ' ' then '.' else l] + ReplaceSpaces(ToLower(t[1..]))
  {
  }

  /** Decomposing one character gives its decomposition. */
  lemma NormalizeDSingle(c: char)
    ensures NormalizeD([c]) == Decompose(c)
  {
    assert NormalizeD([c]) == Decompose(c) + NormalizeD([]);
  }

  lemma {:induction false} CleanedByCharacter(t: string)
    ensures Rows.Filter(NormalizeD(ReplaceSpaces(ToLower(t))), IsSlugChar) == SlugChars(t)
  {
    if t == [] {
      assert ReplaceSpaces(ToLower(t)) == [];
    } else {
      CleanedByCharacter(t[1..]);
      var l := ToLowerChar(t[0]);
      var c := if l == ' ' then '.' else l;
      var y := ReplaceSpaces(ToLower(t[1..]));
      LoweredFirst(t);
      NormalizeDConcat([c], y);
      NormalizeDSingle(c);
      Rows.FilterConcat(Decompose(c), NormalizeD(y), IsSlugChar);
    }
  }

  /** An accented letter, capital or not, contributes just its base letter: the accent is
      dropped. */
  lemma AccentDropped(c: char)
    requires |Decompose(ToLowerChar(c))| == 2
    ensures CharSlug(c) == [Decompose(ToLowerChar(c))[0]]
  {
    var d := Decompose(ToLowerChar(c));
    assert d == [d[0]] + [d[1]];
    Rows.FilterConcat([d[0]], [d[1]], IsSlugChar);
    assert Rows.Filter([d[1]], IsSlugChar) == [] by {
      assert Rows.Filter([d[1]], IsSlugChar) == [] + Rows.Filter([], IsSlugChar);
    }
    assert Rows.Filter([d[0]], IsSlugChar) == [d[0]] by {
      assert Rows.Filter([d[0]], IsSlugChar) == [d[0]] + Rows.Filter([], IsSlugChar);
    }
  }

  /** Decomposition works character by character, so it distributes over concatenation. */
  lemma {:induction false} NormalizeDConcat(a: string, b: string)
    ensures NormalizeD(a + b) == NormalizeD(a) + NormalizeD(b)
  {
    if a != [] {
      assert (a + b)[0] == a[0] && (a + b)[1..] == a[1..] + b;
      NormalizeDConcat(a[1..], b);
      var d := Decompose(a[0]);
      assert d + (NormalizeD(a[1..]) + NormalizeD(b)) == (d + NormalizeD(a[1..])) + NormalizeD(b);
    } else {
      assert a + b == b;
    }
  }

  // ---------------------------------------------------------------------------------------
  // Candidate addresses and the user table
  // ---------------------------------------------------------------------------------------

  /** `$"{local}@{dominio}.com"`. */
  function Address(local: string, dominio: string): string {
    local + "@" + dominio + ".com"
  }

  /** The k-th numbered candidate, `$"{prefijo}{k}@{dominio}.com"`. */
  function Numbered(prefijo: string, k: nat, dominio: string): string {
    Address(prefijo + NatToString(k), dominio)
  }

  /** The e-mails of the user table (rows with a null e-mail have none). */
  function EmailsOf(users: seq<Usuario>): set<string> {
    set u | u in users && u.Email.Some? :: u.Email.value
  }

  /** `EmailYaExiste`: some user has exactly this e-mail. */
  function EmailYaExiste(users: seq<Usuario>, email: string): (r: bool)
    ensures r <==> exists i :: 0 <= i < |users| && users[i].Email == Some(email)
  {
    email in EmailsOf(users)
  }

  /** `email` is what the search for a free address must return: `emailBase` when it is free,
      otherwise the least-numbered free candidate. */
  ghost predicate IsFirstFree(users: seq<Usuario>, emailBase: string, prefijo: string, dominio: string, email: string) {
    && !EmailYaExiste(users, email)
    && (!EmailYaExiste(users, emailBase) ==> email == emailBase)
    && (EmailYaExiste(users, emailBase) ==>
          exists k: nat :: 1 <= k && email == Numbered(prefijo, k, dominio)
            && forall j :: 1 <= j < k ==> EmailYaExiste(users, Numbered(prefijo, j, dominio)))
  }

  /** At most one address is the first free one. */
  lemma FirstFreeUnique(users: seq<Usuario>, emailBase: string, prefijo: string, dominio: string, e1: string, e2: string)
    requires IsFirstFree(users, emailBase, prefijo, dominio, e1)
    requires IsFirstFree(users, emailBase, prefijo, dominio, e2)
    ensures e1 == e2
  {
    if EmailYaExiste(users, emailBase) {
      var k1: nat :| 1 <= k1 && e1 == Numbered(prefijo, k1, dominio)
        && forall j :: 1 <= j < k1 ==> EmailYaExiste(users, Numbered(prefijo, j, dominio));
      var k2: nat :| 1 <= k2 && e2 == Numbered(prefijo, k2, dominio)
        && forall j :: 1 <= j < k2 ==> EmailYaExiste(users, Numbered(prefijo, j, dominio));
      // each candidate is free, so neither can come before the other
      assert !EmailYaExiste(users, Numbered(prefijo, k1, dominio));
      assert !EmailYaExiste(users, Numbered(prefijo, k2, dominio));
    }
  }

  /** Distinct numbers give distinct candidates. */
  lemma NumberedInjective(prefijo: string, dominio: string, j: nat, k: nat)
    requires Numbered(prefijo, j, dominio) == Numbered(prefijo, k, dominio)
    ensures j == k
  {
    var a, b := NatToString(j), NatToString(k);
    var tail := "@" + dominio + ".com";
    var x, y := prefijo + a + tail, prefijo + b + tail;
    assert Numbered(prefijo, j, dominio) == x && Numbered(prefijo, k, dominio) == y;
    assert |a| == |b|;
    assert a == x[|prefijo|..|prefijo| + |a|];
    assert b == y[|prefijo|..|prefijo| + |b|];
    NatToStringInjective(j, k);
  }

  /** The candidates numbered 1 to n. */
  ghost function Tried(prefijo: string, dominio: string, n: nat): set<string> {
    if n == 0 then {} else Tried(prefijo, dominio, n - 1) + {Numbered(prefijo, n, dominio)}
  }

  lemma {:induction false} TriedMembers(prefijo: string, dominio: string, n: nat, e: string)
    requires e in Tried(prefijo, dominio, n)
    ensures exists j :: 1 <= j <= n && e == Numbered(prefijo, j, dominio)
  {
    if e != Numbered(prefijo, n, dominio) {
      TriedMembers(prefijo, dominio, n - 1, e);
    }
  }

  /** There are exactly n candidates numbered 1 to n. */
  lemma {:induction false} TriedCard(prefijo: string, dominio: string, n: nat)
    ensures |Tried(prefijo, dominio, n)| == n
  {
    if n > 0 {
      TriedCard(prefijo, dominio, n - 1);
      if Numbered(prefijo, n, dominio) in Tried(prefijo, dominio, n - 1) {
        TriedMembers(prefijo, dominio, n - 1, Numbered(prefijo, n, dominio));
        var j :| 1 <= j <= n - 1 && Numbered(prefijo, n, dominio) == Numbered(prefijo, j, dominio);
        NumberedInjective(prefijo, dominio, j, n);
      }
    }
  }

  /** Only finitely many candidates can be taken: when candidates 1..n all are, n is at most
      the number of e-mails in the table. */
  lemma TriedBound(users: seq<Usuario>, prefijo: string, dominio: string, n: nat)
    requires forall j :: 1 <= j <= n ==> EmailYaExiste(users, Numbered(prefijo, j, dominio))
    ensures n <= |EmailsOf(users)|
  {
    var t := Tried(prefijo, dominio, n);
    forall e | e in t ensures e in EmailsOf(users) {
      TriedMembers(prefijo, dominio, n, e);
    }
    TriedCard(prefijo, dominio, n);
    SubsetCard(t, EmailsOf(users));
  }

  lemma {:induction false} SubsetCard<T>(a: set<T>, b: set<T>)
    requires a <= b
    ensures |a| <= |b|
  {
    if a != {} {
      var x :| x in a;
      SubsetCard(a - {x}, b - {x});
    }
  }

  // ---------------------------------------------------------------------------------------
  // The generator
  // ---------------------------------------------------------------------------------------

  /** `ObtenerEmailDisponible`: try `emailBase`, then `prefijo1@...`, `prefijo2@...`, ... until
      one is free. */
  method ObtenerEmailDisponible(users: seq<Usuario>, emailBase: string, prefijo: string, dominio: string)
    returns (email: string)
    ensures IsFirstFree(users, emailBase, prefijo, dominio, email)
  {
    email := emailBase;
    var contador: nat := 1;
    while EmailYaExiste(users, email)
      invariant 1 <= contador <= |EmailsOf(users)| + 2
      invariant contador == 1 ==> email == emailBase
      invariant contador > 1 ==> EmailYaExiste(users, emailBase) && email == Numbered(prefijo, contador - 1, dominio)
      invariant forall j :: 1 <= j < contador - 1 ==> EmailYaExiste(users, Numbered(prefijo, j, dominio))
      decreases |EmailsOf(users)| + 2 - contador
    {
      if contador > 1 {
        TriedBound(users, prefijo, dominio, contador - 1);
      }
      email := Numbered(prefijo, contador, dominio);
      contador := contador + 1;
    }
    if EmailYaExiste(users, emailBase) {
      assert contador > 1;
      assert 1 <= contador - 1 && email == Numbered(prefijo, contador - 1, dominio);
    }
  }

  /** The fallback company name is its own slug. */
  lemma EmpresaSlug()
    ensures LimpiarTexto(Some("empresa")) == "empresa"
  {
    LowerAsciiSlug("empresa");
  }

  /** The company's domain slug: the slug of its name, or of "empresa" when the company is not
      found or has no name (`empresa?.Nombre ?? "empresa"`). */
  function DominioEmpresa(empresas: seq<Empresa>, empresaId: int): (r: string)
    ensures Rows.Find(empresas, EmpresaKey, empresaId).None? ==> r == "empresa"
    ensures Rows.Find(empresas, EmpresaKey, empresaId).Some? ==>
      r == LimpiarTexto(Some(Rows.Find(empresas, EmpresaKey, empresaId).value.Nombre.GetOr("empresa")))
  {
    var nombre := match Rows.Find(empresas, EmpresaKey, empresaId)
      case None => "empresa"
      case Some(e) => e.Nombre.GetOr("empresa");
    EmpresaSlug();
    LimpiarTexto(Some(nombre))
  }

  /** `GenerarEmailUnico`: `nombre@dominio.com` from the slugs of the name and of the company,
      numbered when taken. */
  method GenerarEmailUnico(users: seq<Usuario>, empresas: seq<Empresa>, nombre: Option<string>, empresaId: int)
    returns (email: string)
    ensures !EmailYaExiste(users, email)
    ensures var dominio := DominioEmpresa(empresas, empresaId);
            var limpio := LimpiarTexto(nombre);
            IsFirstFree(users, Address(limpio, dominio), limpio, dominio, email)
  {
    var dominio := DominioEmpresa(empresas, empresaId);
    var limpio := LimpiarTexto(nombre);
    email := ObtenerEmailDisponible(users, Address(limpio, dominio), limpio, dominio);
  }

  predicate IsSpace(c: char) {
    c == ' '
  }

  predicate NotSpace(c: char) {
    c != ' '
  }

  function Concat(parts: seq<string>): string {
    if parts == [] then [] else parts[0] + Concat(parts[1..])
  }

  /** Every part is non-empty and holds no space. */
  predicate AreWords(parts: seq<string>) {
    forall i :: 0 <= i < |parts| ==> parts[i] != [] && ' ' !in parts[i]
  }

  /** Gluing a character without a space onto the first word keeps them all words. */
  lemma WordsMerged(c: char, rest: seq<string>)
    requires rest != [] && c != ' ' && AreWords(rest)
    ensures AreWords([[c] + rest[0]] + rest[1..])
  {
    var merged := [[c] + rest[0]] + rest[1..];
    forall i | 0 <= i < |merged| ensures merged[i] != [] && ' ' !in merged[i] {
      if i > 0 { assert merged[i] == rest[i]; }
    }
  }

  /** Gluing a character onto the first part adds it in front of the concatenation. */
  lemma ConcatMerged(c: char, rest: seq<string>)
    requires rest != []
    ensures Concat([[c] + rest[0]] + rest[1..]) == [c] + Concat(rest)
  {
    var merged := [[c] + rest[0]] + rest[1..];
    assert merged[1..] == rest[1..];
  }

  /** A one-character word in front keeps them all words. */
  lemma WordsSingle(c: char, rest: seq<string>)
    requires c != ' ' && AreWords(rest)
    ensures AreWords([[c]] + rest)
  {
    var single := [[c]] + rest;
    forall i | 0 <= i < |single| ensures single[i] != [] && ' ' !in single[i] {
      if i > 0 { assert single[i] == rest[i - 1]; }
    }
  }

  /** A one-character part in front adds that character in front of the concatenation. */
  lemma ConcatSingle(c: char, rest: seq<string>)
    ensures Concat([[c]] + rest) == [c] + Concat(rest)
  {
    var single := [[c]] + rest;
    assert single[1..] == rest;
  }

  /** `s.Split(' ', StringSplitOptions.RemoveEmptyEntries)`: the maximal runs of non-space
      characters, in order. */
  function SplitOnSpaces(s: string): (parts: seq<string>)
    ensures AreWords(parts)
    ensures s != [] && s[0] != ' ' ==> parts != [] && parts[0][0] == s[0]
  {
    if s == [] then []
    else if s[0] == ' ' then SplitOnSpaces(s[1..])
    else
      var rest := SplitOnSpaces(s[1..]);
      if |s| > 1 && s[1] != ' ' then WordsMerged(s[0], rest); [[s[0]] + rest[0]] + rest[1..]
      else WordsSingle(s[0], rest); [[s[0]]] + rest
  }

  /** Together the parts are the text with its spaces removed. */
  lemma {:induction false} SplitOnSpacesParts(s: string)
    ensures Concat(SplitOnSpaces(s)) == Rows.Filter(s, NotSpace)
  {
    if s != [] {
      SplitOnSpacesParts(s[1..]);
      if s[0] != ' ' {
        var rest := SplitOnSpaces(s[1..]);
        assert Rows.Filter(s, NotSpace) == [s[0]] + Rows.Filter(s[1..], NotSpace);
        if |s| > 1 && s[1] != ' ' {
          ConcatMerged(s[0], rest);
        } else {
          ConcatSingle(s[0], rest);
        }
      }
    }
  }

  /** Splitting text that starts with a non-space character `c`. */
  lemma SplitCons(c: char, t: string)
    requires c != ' '
    ensures t != [] && t[0] != ' ' ==> SplitOnSpaces([c] + t) == [[c] + SplitOnSpaces(t)[0]] + SplitOnSpaces(t)[1..]
    ensures !(t != [] && t[0] != ' ') ==> SplitOnSpaces([c] + t) == [[c]] + SplitOnSpaces(t)
  {
    assert ([c] + t)[1..] == t;
  }

  /** A leading space is dropped. */
  lemma SplitSpace(t: string)
    ensures SplitOnSpaces([' '] + t) == SplitOnSpaces(t)
  {
    assert ([' '] + t)[1..] == t;
  }

  /** A word without spaces is split into just itself. */
  lemma {:induction false} SplitWord(w: string)
    requires w != [] && ' ' !in w
    ensures SplitOnSpaces(w) == [w]
  {
    var t := w[1..];
    assert w == [w[0]] + t;
    SplitCons(w[0], t);
    if t != [] {
      assert ' ' !in t by {
        forall i | 0 <= i < |t| ensures t[i] != ' ' { assert t[i] == w[i + 1]; }
      }
      SplitWord(t);
      assert t[0] == w[1];
      assert [t][1..] == [];
      assert SplitOnSpaces(w) == [[w[0]] + t] + [];
    } else {
      assert SplitOnSpaces(t) == [];
      assert [w[0]] + t == w;
      assert SplitOnSpaces(w) == [[w[0]]] + [];
      assert w == [w[0]];
    }
  }

  /** Gluing a first part onto a non-empty list of parts commutes with appending. */
  lemma GlueAppend(h: string, x: seq<string>, y: seq<string>)
    requires x != []
    ensures [h + (x + y)[0]] + (x + y)[1..] == ([h + x[0]] + x[1..]) + y
  {
    assert (x + y)[0] == x[0];
    assert (x + y)[1..] == x[1..] + y;
  }

  /** The step of `SplitAtSpace` for text that starts with a non-space character. */
  lemma SplitAtSpaceCons(c: char, a: string, b: string)
    requires c != ' '
    requires SplitOnSpaces(a + " " + b) == SplitOnSpaces(a) + SplitOnSpaces(b)
    ensures SplitOnSpaces([c] + (a + " " + b)) == SplitOnSpaces([c] + a) + SplitOnSpaces(b)
  {
    var t := a + " " + b;
    SplitCons(c, t);
    SplitCons(c, a);
    if a != [] && a[0] != ' ' {
      assert t[0] == a[0];
      assert SplitOnSpaces(a) != [];
      GlueAppend([c], SplitOnSpaces(a), SplitOnSpaces(b));
    } else {
      assert t[0] == ' ';
      assert [[c]] + (SplitOnSpaces(a) + SplitOnSpaces(b)) == ([[c]] + SplitOnSpaces(a)) + SplitOnSpaces(b);
    }
  }

  /** A space separates: the parts of `a + " " + b` are the parts of `a` followed by the parts
      of `b`, so the parts are exactly the runs between spaces. */
  lemma {:induction false} SplitAtSpace(a: string, b: string)
    ensures SplitOnSpaces(a + " " + b) == SplitOnSpaces(a) + SplitOnSpaces(b)
  {
    if a == [] {
      assert a + " " + b == [' '] + b;
      SplitSpace(b);
    } else {
      var a' := a[1..];
      assert a == [a[0]] + a';
      assert a + " " + b == [a[0]] + (a' + " " + b);
      SplitAtSpace(a', b);
      if a[0] == ' ' {
        SplitSpace(a' + " " + b);
        SplitSpace(a');
      } else {
        SplitAtSpaceCons(a[0], a', b);
      }
    }
  }

  /** The prefix of the short format: the lower-cased first character of the first name part
      followed by the slug of the last part. */
  function ShortPrefix(partes: seq<string>): (r: string)
    requires |partes| >= 2 && partes[0] != []
    ensures |r| >= 1 && r[0] == ToLowerChar(partes[0][0]) && !IsUpper(r[0])
    ensures r[1..] == LimpiarTexto(Some(partes[|partes| - 1]))
  {
    [ToLowerChar(partes[0][0])] + LimpiarTexto(Some(partes[|partes| - 1]))
  }
  /** Two words separated by one space are split into those two words. */
  lemma TwoWords(u: string, w: string)
    requires u != [] && ' ' !in u && w != [] && ' ' !in w
    ensures SplitOnSpaces(u + " " + w) == [u, w]
  {
    SplitAtSpace(u, w);
    SplitWord(u);
    SplitWord(w);
  }

  /** A plain ASCII word without spaces is cleaned to its lower-cased form. */
  lemma AsciiWordSlug(w: string)
    requires w != [] && forall i :: 0 <= i < |w| ==> IsAsciiLetterOrDigit(w[i])
    ensures ' ' !in w && LimpiarTexto(Some(w)) == ToLower(w)
  {
    assert ' ' !in w by {
      forall i | 0 <= i < |w| ensures w[i] != ' ' { assert IsAsciiLetterOrDigit(w[i]); }
    }
    assert !IsWhiteSpace(w[0]);
    SpacesBecomeDots(w);
    assert ReplaceSpaces(ToLower(w)) == ToLower(w);
  }

  /** The short prefix of "Nombre Apellido" with a plain ASCII last name is the lower-cased
      initial followed by the lower-cased last name, as in `jperez@empresa.com`. */
  lemma ShortPrefixOfTwoWords(u: string, w: string)
    requires u != [] && ' ' !in u && w != []
    requires forall i :: 0 <= i < |w| ==> IsAsciiLetterOrDigit(w[i])
    ensures var partes := SplitOnSpaces(u + " " + w);
            |partes| == 2 && ShortPrefix(partes) == [ToLowerChar(u[0])] + ToLower(w)
  {
    AsciiWordSlug(w);
    TwoWords(u, w);
    var r := ShortPrefix([u, w]);
    assert r == [r[0]] + r[1..];
  }

  /** `GenerarEmailCorto`: `jperez@dominio.com`; a name with fewer than two parts falls back to
      `GenerarEmailUnico`. */
  method GenerarEmailCorto(users: seq<Usuario>, empresas: seq<Empresa>, nombreCompleto: string, empresaId: int)
    returns (email: string)
    ensures !EmailYaExiste(users, email)
    ensures var partes := SplitOnSpaces(nombreCompleto);
            var dominio := DominioEmpresa(empresas, empresaId);
            if |partes| < 2 then
              var limpio := LimpiarTexto(Some(nombreCompleto));
              IsFirstFree(users, Address(limpio, dominio), limpio, dominio, email)
            else
              var prefijo := ShortPrefix(partes);
              IsFirstFree(users, Address(prefijo, dominio), prefijo, dominio, email)
  {
    var dominio := DominioEmpresa(empresas, empresaId);
    var partes := SplitOnSpaces(nombreCompleto);
    if |partes| < 2 {
      email := GenerarEmailUnico(users, empresas, Some(nombreCompleto), empresaId);
      return;
    }
    var prefijo := ShortPrefix(partes);
    email := ObtenerEmailDisponible(users, Address(prefijo, dominio), prefijo, dominio);
  }
}
