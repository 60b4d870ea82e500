/** Permissions: what a held one covers. */
module Permissions {
  import opened Base

  /** What libraries decide: letter case, and how hosts are written. `ip` gives
      the canonical text of an address, `ascii` that of an international name. */
  datatype Platform = Platform(
    ignoreCase: bool,
    lower: string -> string,
    ip: string -> Option<string>,
    ascii: string -> Option<string>)

  datatype Permission = Permission(slug: string) {
    /** Domain and specifier, split at the first colon. */
    function Parts(): (string, Option<string>) {
      match FirstOf(slug, {':'})
      case None => (slug, None)
      case Some(i) => (slug[..i], Some(slug[i + 1..]))
    }

    predicate Covers(required: Permission, on: Platform) {
      var (hd, hs) := Parts();
      var (rd, rs) := required.Parts();
      && hd == rd
      && hs.Some? == rs.Some?
      && (hs.Some? ==>
            if FileDomain(hd) then
              && NormalPath(rs.value)
              && (if on.ignoreCase then MatchSpec(on.lower(hs.value), on.lower(rs.value))
                  else MatchSpec(hs.value, rs.value))
            else MatchSpec(hs.value, rs.value))
    }
  }

  /** The permission a slug stands for, hosts in canonical form. */
  function Made(slug: string, on: Platform): Permission {
    var (domain, host) := Permission(slug).Parts();
    if domain == "net" && host.Some? then Permission("net:" + CanonicalHost(host.value, on)) else Permission(slug)
  }

  predicate FileDomain(domain: string) {
    "fs." <= domain
  }

  // ---------- strings ----------

  function FirstOf(text: string, stops: set<char>): (i: Option<nat>)
    ensures i.Some? ==> i.value < |text| && text[i.value] in stops
    ensures i.Some? ==> forall k | 0 <= k < i.value :: text[k] !in stops
    ensures i.None? ==> forall k | 0 <= k < |text| :: text[k] !in stops
  {
    if text == "" then None
    else if text[0] in stops then Some(0)
    else
      var i := FirstOf(text[1..], stops);
      if i.Some? then Some(i.value + 1) else None
  }

  /** The pieces of `text` between characters of `stops`. */
  function Pieces(text: string, stops: set<char>): seq<string>
    decreases |text|
  {
    match FirstOf(text, stops)
    case None => [text]
    case Some(i) => [text[..i]] + Pieces(text[i + 1..], stops)
  }

  predicate Ends(text: string, tail: string) {
    |tail| <= |text| && text[|text| - |tail|..] == tail
  }

  function Front(text: string, n: nat): string
    requires n <= |text|
  {
    text[..|text| - n]
  }

  predicate Letter(c: char) {
    'a' <= c <= 'z' || 'A' <= c <= 'Z'
  }

  function LowerLetter(c: char): char {
    if 'A' <= c <= 'Z' then c - 'A' + 'a' else c
  }

  function AsciiLower(text: string): (r: string)
    ensures |r| == |text| && forall k | 0 <= k < |text| :: r[k] == LowerLetter(text[k])
  {
    seq(|text|, k requires 0 <= k < |text| => LowerLetter(text[k]))
  }

  predicate Ascii(text: string) {
    forall k | 0 <= k < |text| :: text[k] < 128 as char
  }

  // ---------- file paths ----------

  /** No `.` or `..` among the components, whichever separator they use. */
  predicate NormalPath(path: string) {
    var pieces := Pieces(path, {'/', '\\'});
    forall k | 0 <= k < |pieces| :: pieces[k] != "." && pieces[k] != ".."
  }

  predicate WindowsPath(spec: string) {
    (|spec| >= 2 && Letter(spec[0]) && spec[1] == ':') || "\\\\" <= spec
  }

  function Slashed(text: string): (r: string)
    ensures |r| == |text| && '\\' !in r
    ensures forall k | 0 <= k < |text| :: r[k] == if text[k] == '\\' then '/' else text[k]
  {
    seq(|text|, k requires 0 <= k < |text| => if text[k] == '\\' then '/' else text[k])
  }

  // ---------- hosts ----------

  function CanonicalHost(host: string, on: Platform): string {
    var bare := if |host| >= 2 && host[0] == '[' && host[|host| - 1] == ']' then host[1..|host| - 1] else host;
    if on.ip(bare).Some? then on.ip(bare).value
    else
      var name := if Ends(host, ".") then Front(host, 1) else host;
      if !Ascii(name) && '*' !in name && on.ascii(name).Some? then on.ascii(name).value
      else AsciiLower(name)
  }

  // ---------- matching ----------

  predicate MatchSpec(holder: string, required: string)
    decreases if '\\' in holder || '\\' in required then 1 else 0
  {
    if holder == "*" || holder == "**" || holder == required then true
    else if ('\\' in holder || '\\' in required) && (WindowsPath(holder) || WindowsPath(required)) then
      MatchSpec(Slashed(holder), Slashed(required))
    else if Ends(holder, "/**") then
      var prefix := Front(holder, 3);
      required == prefix || (prefix <= required && "/" <= required[|prefix|..])
    else if Ends(holder, "/*") then
      var prefix := Front(holder, 2);
      prefix <= required && "/" <= required[|prefix|..] && '/' !in required[|prefix| + 1..]
    else Ends(holder, "*") && Front(holder, 1) <= required
  }

  // ---------- sets ----------

  predicate Contains(held: set<Permission>, p: Permission, on: Platform) {
    exists h | h in held :: h.Covers(p, on)
  }

  predicate CoversAll(held: set<Permission>, required: set<Permission>, on: Platform) {
    forall r | r in required :: Contains(held, r, on)
  }

  datatype Denial = Denial(actions: set<string>, permissions: set<Permission>) {
    predicate DeniesPermission(p: Permission, on: Platform) {
      exists h | h in permissions :: Denies(h, p, on)
    }
  }

  function TrimSeparators(text: string): string {
    if text != "" && (text[|text| - 1] == '/' || text[|text| - 1] == '\\') then TrimSeparators(Front(text, 1)) else text
  }

  /** A denied permission denies what it covers, and a denied file path what is
      inside it too. */
  predicate Denies(h: Permission, p: Permission, on: Platform) {
    || h.Covers(p, on)
    || (var (domain, spec) := h.Parts();
        && spec.Some?
        && FileDomain(domain)
        && !Ends(spec.value, "*")
        && Made(domain + ":" + TrimSeparators(spec.value) + "/**", on).Covers(p, on))
  }

  // ---------- what covers itself ----------

  /** A file permission whose path has a `.` or `..` component is covered by no
      permission at all, and every other permission covers itself. */
  lemma CoverableExactly(p: Permission, on: Platform)
    ensures p.Covers(p, on) <==> (exists h: Permission :: h.Covers(p, on))
    ensures p.Covers(p, on) <==> !Climbs(p)
  {
  }

  predicate Climbs(p: Permission) {
    "fs." <= p.Parts().0 && p.Parts().1.Some? && !NormalPath(p.Parts().1.value)
  }

  /** An approved permission is read again from its text. The permission that
      gives covers the one approved, except when a path climbs or a host loses
      another dot. */
  lemma MadeAgainCovers(p: Permission, on: Platform)
    ensures Made(p.slug, on).Covers(p, on) <==> !Climbs(p) && !Renamed(p, on)
  {
    var (domain, spec) := p.Parts();
    if domain == "net" && spec.Some? {
      MadeHost(CanonicalHost(spec.value, on));
    }
  }

  /** The host is written otherwise once read again, and no longer matches. */
  predicate Renamed(p: Permission, on: Platform) {
    && p.Parts().0 == "net"
    && p.Parts().1.Some?
    && !MatchSpec(CanonicalHost(p.Parts().1.value, on), p.Parts().1.value)
  }

  lemma MadeHost(host: string)
    ensures Permission("net:" + host).Parts() == ("net", Some(host))
  {
    var slug := "net:" + host;
    assert slug[0] == 'n' && slug[1] == 'e' && slug[2] == 't' && slug[3] == ':';
    var i := FirstOf(slug, {':'});
    assert i.Some? && i.value == 3;
    assert slug[..3] == "net" && slug[4..] == host;
  }

  /** An ordinary host name in lower case. */
  predicate PlainHost(host: string) {
    Ascii(host) && forall k | 0 <= k < |host| :: host[k] !in {'*', '[', '\\'} && LowerLetter(host[k]) == host[k]
  }

  lemma PlainHostStays(host: string, on: Platform)
    requires PlainHost(host) && on.ip(host).None? && !Ends(host, ".")
    ensures CanonicalHost(host, on) == host
  {
    assert AsciiLower(host) == host;
  }

  lemma OneDotGoes(host: string, on: Platform)
    requires PlainHost(host) && on.ip(host + ".").None?
    ensures PlainHost(host + ".")
    ensures CanonicalHost(host + ".", on) == host
  {
    var dotted := host + ".";
    assert Front(dotted, 1) == host && dotted[|host|..] == ".";
    assert AsciiLower(host) == host;
  }

  /** A host written with two dots at its end loses one each time it is read, so
      approving it never covers it. */
  lemma TwoDots(host: string, on: Platform)
    requires PlainHost(host) && on.ip(host + "..").None? && on.ip(host + ".").None?
    ensures Made("net:" + (host + ".."), on) == Permission("net:" + (host + "."))
    ensures Renamed(Permission("net:" + (host + ".")), on)
  {
    hide MatchSpec, PlainHost, CanonicalHost, FirstOf;
    var one := host + ".";
    assert host + ".." == one + ".";
    MadeHost(one + ".");
    MadeHost(one);
    OneDotGoes(host, on);
    OneDotGoes(one, on);
    NoMatchWithDot(host);
  }

  lemma NoMatchWithDot(host: string)
    requires PlainHost(host)
    ensures !MatchSpec(host, host + ".")
  {
    assert host != "" ==> host[|host| - 1] != '*';
  }

  /** On Windows paths the two separators match alike. */
  lemma SeparatorsMatchAlike(holder: string, required: string)
    requires WindowsPath(holder) || WindowsPath(required)
    ensures MatchSpec(holder, required) == MatchSpec(Slashed(holder), Slashed(required))
  {
    if '\\' !in holder && '\\' !in required {
      assert Slashed(holder) == holder && Slashed(required) == required;
    } else if holder == "*" || holder == "**" {
      assert Slashed(holder) == holder;
    }
  }
}
