/** What permissions written in each form cover. */
module PermissionForms {
  import opened Base
  import opened Permissions
  import opened PathMatching

  // ---------- domains ----------

  /** A permission for a whole domain covers that one and nothing else. */
  lemma DomainCovers(held: string, required: string, on: Platform)
    requires ':' !in held
    ensures Permission(held).Covers(Permission(required), on) <==> held == required
  {
    var i := FirstOf(required, {':'});
    assert i.Some? ==> required[i.value] == ':';
  }

  /** A permission with a specifier covers none for a whole domain and none of another
      domain. In a file domain it covers only paths without `.` and `..`, and case is
      folded where the platform ignores it; elsewhere the specifiers decide as they are. */
  lemma CoversExactly(domain: string, spec: string, other: string, required: string, on: Platform)
    requires ':' !in domain && ':' !in other
    ensures !Permission(domain + ":" + spec).Covers(Permission(other), on)
    ensures Permission(domain + ":" + spec).Covers(Permission(other + ":" + required), on) <==>
            && domain == other
            && if "fs." <= domain then
                 && NormalPath(required)
                 && if on.ignoreCase then MatchSpec(on.lower(spec), on.lower(required)) else MatchSpec(spec, required)
               else MatchSpec(spec, required)
  {
    ForParts(domain, spec);
    ForParts(other, required);
    assert FirstOf(other, {':'}) == None;
    hide MatchSpec, NormalPath;
  }

  // ---------- specifiers ----------

  lemma EndsWith1(text: string, a: char)
    ensures Ends(text, [a]) <==> |text| >= 1 && text[|text| - 1] == a
  {
    assert |text| >= 1 ==> text[|text| - 1..] == [text[|text| - 1]];
  }

  lemma EndsWith2(text: string, a: char, b: char)
    ensures Ends(text, [a, b]) <==> |text| >= 2 && text[|text| - 2] == a && text[|text| - 1] == b
  {
    assert |text| >= 2 ==> text[|text| - 2..] == [text[|text| - 2], text[|text| - 1]];
  }

  lemma EndsWith3(text: string, a: char, b: char, c: char)
    ensures Ends(text, [a, b, c]) <==>
              |text| >= 3 && text[|text| - 3] == a && text[|text| - 2] == b && text[|text| - 1] == c
  {
    assert |text| >= 3 ==> text[|text| - 3..] == [text[|text| - 3], text[|text| - 2], text[|text| - 1]];
  }

  lemma EndsAre(text: string)
    ensures Ends(text, "*") <==> |text| >= 1 && text[|text| - 1] == '*'
    ensures Ends(text, "/") <==> |text| >= 1 && text[|text| - 1] == '/'
    ensures Ends(text, "/*") <==> |text| >= 2 && text[|text| - 2] == '/' && text[|text| - 1] == '*'
    ensures Ends(text, "/**") <==>
              |text| >= 3 && text[|text| - 3] == '/' && text[|text| - 2] == '*' && text[|text| - 1] == '*'
  {
    hide Ends;
    EndsWith1(text, '*');
    EndsWith1(text, '/');
    EndsWith2(text, '/', '*');
    EndsWith3(text, '/', '*', '*');
  }

  lemma StarForms(prefix: string)
    ensures Ends(prefix + "*", "*") && Front(prefix + "*", 1) == prefix
    ensures Ends(prefix + "*", "/**") <==> Ends(prefix, "/*")
    ensures Ends(prefix + "*", "/*") <==> Ends(prefix, "/")
  {
    EndsAre(prefix);
    EndsAre(prefix + "*");
  }

  /** What a specifier matches, by its form, when no backslash is involved: a star, or two,
      everything; a star at its end, whatever starts as it does; any other, itself. */
  lemma PlainForms(prefix: string, spec: string, required: string)
    requires '\\' !in prefix && '\\' !in spec && '\\' !in required
    requires !Ends(prefix, "/") && !Ends(prefix, "/*")
    requires !Ends(spec, "*")
    ensures MatchSpec("*", required) && MatchSpec("**", required)
    ensures MatchSpec(prefix + "*", required) <==> prefix == "*" || prefix <= required
    ensures MatchSpec(spec, required) <==> spec == required
  {
    StarForms(prefix);
    StarAtEnd(spec);
    assert '\\' !in prefix + "*";
    assert prefix + "*" == required ==> required[..|prefix|] == prefix;
  }

  /** The text is below the folder. */
  predicate Below(folder: string, text: string) {
    |text| > |folder| && text[..|folder|] == folder && text[|folder|] == '/'
  }

  lemma BelowIs(folder: string, text: string)
    ensures folder <= text && "/" <= text[|folder|..] <==> Below(folder, text)
  {
    if folder <= text {
      assert text[|folder|..] != "" ==> text[|folder|..][0] == text[|folder|];
    }
  }

  /** A folder with a slash and two stars after it matches that folder and whatever is
      below it. */
  lemma TreeForm(folder: string, required: string)
    requires '\\' !in folder && '\\' !in required
    ensures MatchSpec(folder + "/**", required) <==> required == folder || Below(folder, required)
  {
    var spec := folder + "/**";
    EndsAre(spec);
    BelowIs(folder, required);
    hide Ends;
    assert Front(spec, 3) == folder && '\\' !in spec && |spec| >= 3;
    assert spec[..|folder|] == folder && spec[|folder|] == '/';
  }

  /** With a slash and one star, it matches what is one level below it. */
  lemma LevelForm(folder: string, required: string)
    requires '\\' !in folder && '\\' !in required
    ensures MatchSpec(folder + "/*", required) <==> Below(folder, required) && '/' !in required[|folder| + 1..]
  {
    var spec := folder + "/*";
    EndsAre(spec);
    BelowIs(folder, required);
    hide Ends;
    assert Front(spec, 2) == folder && '\\' !in spec && |spec| >= 2;
    assert spec[..|folder|] == folder && spec[|folder|] == '/' && spec[|folder| + 1..] == "*";
  }

  /** A path that starts with a drive's letter, or with two backslashes, is matched with
      its backslashes read as slashes. */
  lemma WindowsForms(drive: char, rest: string, required: string)
    requires 'a' <= drive <= 'z' || 'A' <= drive <= 'Z'
    ensures MatchSpec([drive] + ":" + rest, required) == MatchSpec(Slashed([drive] + ":" + rest), Slashed(required))
    ensures MatchSpec("\\\\" + rest, required) == MatchSpec(Slashed("\\\\" + rest), Slashed(required))
  {
    var local, shared := [drive] + ":" + rest, "\\\\" + rest;
    assert local[1] == ':' && shared[..2] == "\\\\";
    SeparatorsMatchAlike(local, required);
    SeparatorsMatchAlike(shared, required);
  }

  // ---------- hosts ----------

  /** How a host is written canonically: an address, in brackets or not, as the platform
      writes it; an ordinary name in lower case, without a dot at its end. */
  lemma HostForms(host: string, on: Platform)
    requires host == "" || host[0] != '['
    ensures on.ip(host).Some? ==> CanonicalHost("[" + host + "]", on) == on.ip(host).value
    ensures on.ip(host).Some? ==> CanonicalHost(host, on) == on.ip(host).value
    ensures on.ip(host).None? && !Ends(host, ".") && (Ascii(host) || '*' in host) ==>
              CanonicalHost(host, on) == AsciiLower(host)
    ensures on.ip(host + ".").None? && (Ascii(host) || '*' in host) ==>
              CanonicalHost(host + ".", on) == AsciiLower(host)
    ensures on.ip(host).None? && !Ends(host, ".") && !Ascii(host) && '*' !in host ==>
              CanonicalHost(host, on) == if on.ascii(host).Some? then on.ascii(host).value else AsciiLower(host)
  {
    var boxed, dotted := "[" + host + "]", host + ".";
    assert boxed[1..|boxed| - 1] == host;
    assert Ends(dotted, ".") && Front(dotted, 1) == host;
    assert host != "" ==> dotted[0] == host[0];
  }

  /** Lower case is of ASCII letters only. */
  lemma LowerIs(text: string, k: nat)
    requires k < |text|
    ensures AsciiLower(text)[k] == if 'A' <= text[k] <= 'Z' then (text[k] as int + 32) as char else text[k]
  {
  }

  /** A network permission is made with its host written canonically; any other is what
      its text says. */
  lemma MadeForms(spec: string, domain: string, on: Platform)
    requires ':' !in domain
    ensures Made("net:" + spec, on) == Permission("net:" + CanonicalHost(spec, on))
    ensures domain != "net" ==> Made(domain + ":" + spec, on) == Permission(domain + ":" + spec)
    ensures Made(domain, on) == Permission(domain)
  {
    MadeHost(spec);
    ForParts(domain, spec);
    assert FirstOf(domain, {':'}) == None;
  }
}
