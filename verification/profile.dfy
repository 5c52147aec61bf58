/**
 * The profile page: the e-mail-domain verification heuristic, and the
 * profile form whose six fields are filled from the stored `cc_profile`
 * draft when the page opens.
 */
module Profile {
  import opened Wrappers
  import opened Text

  /** The text of `s` before its first `c`, or all of `s` when there is none. */
  function Before(s: string, c: char): (r: string)
    ensures |r| <= |s|
    ensures forall k :: 0 <= k < |r| ==> r[k] == s[k]
    ensures c !in r
    ensures |r| == |s| || s[|r|] == c
  {
    if s == "" || s[0] == c then "" else [s[0]] + Before(s[1..], c)
  }

  /**
   * `d` is the second piece of `email.split("@")`: `email[i]` is its first
   * `@`, and `d` runs from there to the next `@` or the end.
   */
  predicate SecondPiece(email: string, i: nat, d: string) {
    && i < |email| && email[i] == '@' && '@' !in email[..i]
    && i + 1 + |d| <= |email| && email[i + 1..i + 1 + |d|] == d
    && (i + 1 + |d| == |email| || email[i + 1 + |d|] == '@')
  }

  /** `email.split("@")[1] || ""`: empty when there is no `@`. */
  function Domain(email: string): (d: string)
    ensures '@' !in d
    ensures '@' !in email ==> d == ""
    ensures '@' in email ==> exists i: nat :: SecondPiece(email, i, d)
  {
    if email == "" then ""
    else if email[0] == '@' then
      var d := Before(email[1..], '@');
      assert SecondPiece(email, 0, d);
      d
    else
      var d := Domain(email[1..]);
      DomainShift(email, d);
      d
  }

  lemma DomainShift(email: string, d: string)
    requires email != "" && email[0] != '@'
    requires '@' in email[1..] ==> exists i: nat :: SecondPiece(email[1..], i, d)
    ensures '@' in email ==> exists i: nat :: SecondPiece(email, i, d)
  {
    if '@' in email {
      assert '@' in email[1..];
      var tail := email[1..];
      var i: nat :| SecondPiece(tail, i, d);
      assert email[..i + 1] == [email[0]] + tail[..i];
      assert email[i + 2..i + 2 + |d|] == tail[i + 1..i + 1 + |d|];
      assert SecondPiece(email, i + 1, d);
    }
  }

  /** Splitting `local@domain` (optionally followed by `@...`) gives back `domain`. */
  lemma {:induction false} DomainOfParts(local: string, domain: string, rest: string)
    requires '@' !in local && '@' !in domain
    requires rest == "" || rest[0] == '@'
    ensures Domain(local + "@" + domain + rest) == domain
  {
    var email := local + "@" + domain + rest;
    if local == "" {
      assert email[0] == '@' && email[1..] == domain + rest;
      BeforeOfParts(domain, rest);
    } else {
      assert email[0] != '@';
      assert email[1..] == local[1..] + "@" + domain + rest;
      DomainOfParts(local[1..], domain, rest);
    }
  }

  /** The domain of `local@domain`, when neither part holds an `@`. */
  lemma DomainOfAddress(local: string, domain: string)
    requires '@' !in local && '@' !in domain
    ensures Domain(local + "@" + domain) == domain
  {
    assert local + "@" + domain == local + "@" + domain + "";
    DomainOfParts(local, domain, "");
  }

  lemma {:induction false} BeforeOfParts(domain: string, rest: string)
    requires '@' !in domain
    requires rest == "" || rest[0] == '@'
    ensures Before(domain + rest, '@') == domain
  {
    if domain == "" {
      assert domain + rest == rest;
    } else {
      assert (domain + rest)[1..] == domain[1..] + rest;
      BeforeOfParts(domain[1..], rest);
    }
  }

  /** `a@b@c.edu` has domain `b`: only the text up to the second `@` counts. */
  lemma DomainStopsAtSecondAt()
    ensures Domain("a@b@c.edu") == "b"
  {
    assert "a@b@c.edu" == "a" + "@" + "b" + "@c.edu";
    DomainOfParts("a", "b", "@c.edu");
  }

  /**
   * The `verified` badge. Only the roles "student" and "sponsor" can be
   * verified, and only with a non-empty domain: a student's domain must end
   * in ".edu" (any letter case); a sponsor's lower-cased domain must contain
   * the non-empty organisation name with its white space removed, lower-cased.
   */
  function Verified(email: string, role: string, org: string): (v: bool)
    ensures v ==> Domain(email) != ""
    ensures v ==> role == "student" || role == "sponsor"
    ensures role == "student" ==>
      (v <==> var d := Domain(email); |d| >= 4 && Lower(d[|d| - 4..]) == ".edu")
    ensures role == "sponsor" ==>
      (v <==> Domain(email) != "" && org != "" && Contains(Lower(Domain(email)), Lower(StripWhitespace(org))))
  {
    var domain := Domain(email);
    if domain == "" then false
    else if role == "student" then
      var l := Lower(domain);
      assert |domain| >= 4 ==> l[|l| - 4..] == Lower(domain[|domain| - 4..]);
      EndsWith(l, ".edu")
    else if role == "sponsor" then org != "" && Contains(Lower(domain), Lower(StripWhitespace(org)))
    else false
  }

  /** An e-mail without `@` is never verified, whatever the role. */
  lemma NoAtNeverVerified(email: string, role: string, org: string)
    requires '@' !in email
    ensures !Verified(email, role, org)
  {
  }

  /** Nothing between the first `@` and the end or the next `@`: never verified. */
  lemma EmptyDomainNeverVerified(local: string, rest: string, role: string, org: string)
    requires '@' !in local
    requires rest == "" || rest[0] == '@'
    ensures !Verified(local + "@" + rest, role, org)
  {
    assert local + "@" + rest == local + "@" + "" + rest;
    DomainOfParts(local, "", rest);
  }

  /** A role other than the two known ones is never verified. */
  lemma OtherRoleNeverVerified(email: string, role: string, org: string)
    requires role != "student" && role != "sponsor"
    ensures !Verified(email, role, org)
  {
  }

  /** A sponsor with an empty organisation name is never verified. */
  lemma EmptyOrgNeverVerified(email: string)
    ensures !Verified(email, "sponsor", "")
  {
  }

  /**
   * An organisation name made only of white space strips to "", which every
   * domain contains: a sponsor with such a name and any non-empty domain is
   * verified.
   */
  lemma BlankOrgVerified(email: string, org: string)
    requires org != "" && AllWhitespace(org)
    requires Domain(email) != ""
    ensures Verified(email, "sponsor", org)
  {
  }

  lemma EduSuffix(host: string)
    requires '@' !in host
    ensures '@' !in host + ".edu"
    ensures var d := host + ".edu"; |d| >= 4 && Lower(d[|d| - 4..]) == ".edu"
  {
    var e := ".edu";
    assert '@' !in e by {
      assert forall i :: 0 <= i < |e| ==> e[i] != '@';
    }
    var d := host + e;
    assert d[|d| - 4..] == e;
    assert Lower(e) == e;
  }

  /** Any address `local@host.edu` with a single `@` is a verified student. */
  lemma StudentEduVerified(local: string, host: string, org: string)
    requires '@' !in local && '@' !in host
    ensures Verified(local + "@" + host + ".edu", "student", org)
  {
    var d := host + ".edu";
    EduSuffix(host);
    assert local + "@" + host + ".edu" == local + "@" + d;
    DomainOfAddress(local, d);
  }

  lemma GmailAddress(local: string)
    requires '@' !in local
    ensures Domain(local + "@" + "gmail.com") == "gmail.com"
  {
    var d := "gmail.com";
    assert '@' !in d by {
      assert forall i :: 0 <= i < |d| ==> d[i] != '@';
    }
    DomainOfAddress(local, d);
  }

  lemma GmailNotEdu()
    ensures var d := "gmail.com"; Lower(d[|d| - 4..]) != ".edu"
  {
    var d := "gmail.com";
    assert d[|d| - 4..] == ".com";
    assert Lower(".com")[1] == 'c';
  }

  /** An address at `gmail.com` is not a verified student. */
  lemma StudentGmailNotVerified(local: string, org: string)
    requires '@' !in local
    ensures !Verified(local + "@" + "gmail.com", "student", org)
  {
    GmailAddress(local);
    GmailNotEdu();
  }

  // Facts about the literal strings of the sponsor examples, one per lemma
  // so that each is evaluated on its own.

  lemma TechNovaHasNoWhitespace()
    ensures StripWhitespace("TechNova") == "TechNova"
  {
    var s := "TechNova";
    assert forall i :: 0 <= i < |s| ==> !IsWhitespace(s[i]) by {
      assert s[0] == 'T' && s[1] == 'e' && s[2] == 'c' && s[3] == 'h';
      assert s[4] == 'N' && s[5] == 'o' && s[6] == 'v' && s[7] == 'a';
    }
  }

  lemma TechNovaLowered()
    ensures Lower("TechNova") == "technova"
  {
    var s, t := "TechNova", "technova";
    var l := Lower(s);
    assert l[0] == 't' && l[1] == 'e' && l[2] == 'c' && l[3] == 'h';
    assert l[4] == 'n' && l[5] == 'o' && l[6] == 'v' && l[7] == 'a';
    assert forall i :: 0 <= i < 8 ==> l[i] == t[i];
  }

  /** The organisation "TechNova" is looked for as "technova". */
  lemma TechNovaKey()
    ensures Lower(StripWhitespace("TechNova")) == "technova"
  {
    TechNovaHasNoWhitespace();
    TechNovaLowered();
  }

  lemma TechNovaDomainLowered()
    ensures Lower("technova.com") == "technova.com"
  {
    var s := "technova.com";
    assert s[0] == 't' && s[1] == 'e' && s[2] == 'c' && s[3] == 'h' && s[4] == 'n' && s[5] == 'o';
    assert s[6] == 'v' && s[7] == 'a' && s[8] == '.' && s[9] == 'c' && s[10] == 'o' && s[11] == 'm';
    LowerKeepsLowerCase(s);
  }

  lemma TechNovaDomainContainsKey()
    ensures Contains("technova.com", "technova")
  {
    assert OccursAt("technova.com", "technova", 0);
  }

  lemma OtherDomainLowered()
    ensures Lower("other.com") == "other.com"
  {
    var s := "other.com";
    assert s[0] == 'o' && s[1] == 't' && s[2] == 'h' && s[3] == 'e' && s[4] == 'r';
    assert s[5] == '.' && s[6] == 'c' && s[7] == 'o' && s[8] == 'm';
    LowerKeepsLowerCase(s);
  }

  lemma OtherDomainLacksKey()
    ensures !Contains("other.com", "technova")
  {
    forall i: nat | i <= 9 ensures !OccursAt("other.com", "technova", i) {
      if i + 8 <= 9 {
        assert "other.com"[i..i + 8][1] != 'e';
      }
    }
  }

  /** "noatsign" has no domain, so it is not a verified student. */
  lemma NoAtSignExample()
    ensures !Verified("noatsign", "student", "")
  {
    assert '@' !in "noatsign" by {
      forall i | 0 <= i < 8 ensures "noatsign"[i] != '@' {}
    }
    NoAtNeverVerified("noatsign", "student", "");
  }

  lemma TechNovaAddress(local: string)
    requires '@' !in local
    ensures Domain(local + "@" + "technova.com") == "technova.com"
  {
    var d := "technova.com";
    assert '@' !in d by {
      assert forall i :: 0 <= i < |d| ==> d[i] != '@';
    }
    DomainOfAddress(local, d);
  }

  lemma OtherAddress(local: string)
    requires '@' !in local
    ensures Domain(local + "@" + "other.com") == "other.com"
  {
    var d := "other.com";
    assert '@' !in d by {
      assert forall i :: 0 <= i < |d| ==> d[i] != '@';
    }
    DomainOfAddress(local, d);
  }

  /**
   * The organisation "TechNova" verifies a sponsor at `technova.com` but not
   * one at `other.com`.
   */
  lemma SponsorExamples(local: string)
    requires '@' !in local
    ensures Verified(local + "@" + "technova.com", "sponsor", "TechNova")
    ensures !Verified(local + "@" + "other.com", "sponsor", "TechNova")
  {
    TechNovaKey();
    TechNovaAddress(local);
    OtherAddress(local);
    TechNovaDomainLowered();
    TechNovaDomainContainsKey();
    OtherDomainLowered();
    OtherDomainLacksKey();
  }

  /** The draft as JSON-parsed from storage; `None` is a missing or null field. */
  datatype StoredProfile = StoredProfile(
    role: Option<string>, name: Option<string>, email: Option<string>,
    org: Option<string>, location: Option<string>, linkedin: Option<string>)

  /** The six form fields. */
  datatype ProfileFields = ProfileFields(
    role: string, name: string, email: string,
    org: string, location: string, linkedin: string)

  /** The fields a new form starts with. */
  const Defaults := ProfileFields("student", "", "", "", "", "")

  /** A stored draft with each missing field replaced by its default (`??`). */
  function WithDefaults(p: StoredProfile): ProfileFields {
    ProfileFields(
      p.role.GetOr(Defaults.role), p.name.GetOr(Defaults.name), p.email.GetOr(Defaults.email),
      p.org.GetOr(Defaults.org), p.location.GetOr(Defaults.location), p.linkedin.GetOr(Defaults.linkedin))
  }

  /** A draft with no fields at all loads as the defaults. */
  lemma EmptyDraftIsDefaults()
    ensures WithDefaults(StoredProfile(None, None, None, None, None, None)) == Defaults
  {
  }

  /**
   * A stored role is taken verbatim, so a draft can carry a role the
   * buttons never set; such a profile is never verified.
   */
  lemma StoredUnknownRoleNotVerified(p: StoredProfile)
    requires p.role.Some? && p.role.value != "student" && p.role.value != "sponsor"
    ensures WithDefaults(p).role == p.role.value
    ensures var f := WithDefaults(p); !Verified(f.email, f.role, f.org)
  {
  }

  /** The profile page's form state. */
  class ProfileForm {
    var role: string
    var name: string
    var email: string
    var org: string
    var location: string
    var linkedin: string

    function Fields(): ProfileFields
      reads this
    {
      ProfileFields(role, name, email, org, location, linkedin)
    }

    /** The form as the page first renders it. */
    constructor ()
      ensures Fields() == Defaults
    {
      role, name, email, org, location, linkedin := "student", "", "", "", "", "";
    }

    /** The badge shown beside the form: only a student or sponsor with an e-mail domain earns it. */
    function IsVerified(): (b: bool)
      reads this
      ensures b ==> Domain(email) != ""
      ensures b ==> role == "student" || role == "sponsor"
      ensures '@' !in email ==> !b
    {
      Verified(email, role, org)
    }

    /**
     * The load effect. `raw` is what storage holds under `cc_profile`;
     * `parse` stands for `JSON.parse`, with `None` when it throws. A missing
     * or empty value, or one that does not parse, leaves the form as it was;
     * a parsed draft sets each field, falling back to its default.
     */
    method LoadDraft(raw: Option<string>, parse: string -> Option<StoredProfile>)
      modifies this
      ensures raw.Some? && raw.value != "" && parse(raw.value).Some? ==>
        Fields() == WithDefaults(parse(raw.value).value)
      ensures !(raw.Some? && raw.value != "" && parse(raw.value).Some?) ==>
        Fields() == old(Fields())
    {
      if raw.Some? && raw.value != "" {
        var parsed := parse(raw.value);
        if parsed.Some? {
          var p := parsed.value;
          role := p.role.GetOr("student");
          name := p.name.GetOr("");
          email := p.email.GetOr("");
          org := p.org.GetOr("");
          location := p.location.GetOr("");
          linkedin := p.linkedin.GetOr("");
        }
      }
    }
  }

  /**
   * Opening the page: a fresh form, then the load effect. When nothing
   * usable is stored the defaults stay in place.
   */
  method OpenPage(raw: Option<string>, parse: string -> Option<StoredProfile>) returns (form: ProfileForm)
    ensures fresh(form)
    ensures raw.Some? && raw.value != "" && parse(raw.value).Some? ==>
      form.Fields() == WithDefaults(parse(raw.value).value)
    ensures !(raw.Some? && raw.value != "" && parse(raw.value).Some?) ==> form.Fields() == Defaults
    ensures !(raw.Some? && raw.value != "" && parse(raw.value).Some?) ==> !form.IsVerified()
    ensures raw.Some? && raw.value != "" && parse(raw.value).Some? ==>
      var p := parse(raw.value).value;
      p.role.Some? && p.role.value != "student" && p.role.value != "sponsor" ==> !form.IsVerified()
  {
    form := new ProfileForm();
    form.LoadDraft(raw, parse);
  }
}
