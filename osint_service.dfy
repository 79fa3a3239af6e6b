/** The OSINT search service: for a domain, an e-mail address or a person's
    name it returns a fixed list of mock findings, a few of whose fields are
    derived from the queried value. The two-second delay is left out; the
    random identifiers are a parameter, `uuid(k)` being the `k`-th one drawn
    during the call. */
module OsintService {
  import opened Wrappers
  import opened Strings

  /** A field value of a finding. */
  datatype Value =
    | Text(text: string)
    | Flag(flag: bool)
    | Number(number: int)
    | Texts(texts: seq<string>)
    | Numbers(numbers: seq<int>)
    | Undefined

  datatype Entry = Entry(key: string, value: Value)

  datatype OsintResult = OsintResult(id: string, title: string, category: string, data: seq<Entry>)

  /** The query; its type is a string so that the fall-through case is
      reachable. */
  datatype Query = Query(kind: string, value: string)

  /** The value stored under `key`, the first one if there are several. */
  function Get(data: seq<Entry>, key: string): (v: Option<Value>)
    ensures v.Some? <==> exists i :: 0 <= i < |data| && data[i].key == key
    ensures v.Some? ==> exists i :: 0 <= i < |data| && data[i] == Entry(key, v.value)
                                    && forall j :: 0 <= j < i ==> data[j].key != key
  {
    if |data| == 0 then None
    else if data[0].key == key then Some(data[0].value)
    else
      var v := Get(data[1..], key);
      assert forall i :: 0 <= i < |data| - 1 ==> data[1..][i] == data[i + 1];
      v
  }

  // ---- the derived fields

  /** 'Free Provider': the address mentions one of the three free mail
      providers anywhere. */
  function FreeProvider(email: string): bool {
    Contains(email, "gmail") || Contains(email, "yahoo") || Contains(email, "hotmail")
  }

  /** 'Role Account': the address starts with "admin" or "info". */
  function RoleAccount(email: string): bool {
    StartsWith(email, "admin") || StartsWith(email, "info")
  }

  /** 'Primary Domain': the second '@'-separated part, `undefined` when
      there is no '@'. */
  function PrimaryDomain(email: string): Value {
    var parts := Split(email, '@');
    if |parts| >= 2 then Text(parts[1]) else Undefined
  }

  /** The lower-cased name with its first space replaced by `sep`. */
  function Handle(name: string, sep: char): string {
    ReplaceFirst(ToLower(name), ' ', sep)
  }

  function PrimaryEmail(name: string): string {
    Handle(name, '.') + "@gmail.com"
  }

  function SecondaryEmails(name: string): seq<string> {
    [Handle(name, '_') + "@outlook.com", Split(ToLower(name), ' ')[0] + "@professional-domain.com"]
  }

  // ---- the three mock builders

  function DomainResults(domain: string, uuid: nat -> string): (rs: seq<OsintResult>)
    ensures |rs| == 6
  {
    [ OsintResult(uuid(0), "WHOIS Information", "Domain Intelligence",
        [ Entry("Registration Date", Text("2021-06-15")),
          Entry("Expiry Date", Text("2023-06-15")),
          Entry("Registrar", Text("Example Registrar Inc.")),
          Entry("Name Servers", Texts(["ns1.example.com", "ns2.example.com"])),
          Entry("Owner", Text("Example Organization")),
          Entry("Email", Text("admin@example.com")),
          Entry("Phone", Text("+1 555-123-4567")) ]),
      OsintResult(uuid(1), "DNS Records", "Domain Intelligence",
        [ Entry("A Record", Text("192.168.1.1")),
          Entry("MX Records", Texts(["mail.example.com", "mail2.example.com"])),
          Entry("TXT Records", Texts(["v=spf1 include:_spf.example.com ~all"])),
          Entry("NS Records", Texts(["ns1.example.com", "ns2.example.com"])),
          Entry("CNAME Records", Texts(["www.example.com"])) ]),
      OsintResult(uuid(2), "IP Information", "Server Information",
        [ Entry("IP Address", Text("192.168.1.1")),
          Entry("Location", Text("San Francisco, CA")),
          Entry("ISP", Text("Example ISP")),
          Entry("Hosting Provider", Text("Example Cloud Services")),
          Entry("Detected OS", Text("Linux")),
          Entry("Open Ports", Numbers([80, 443, 22])),
          Entry("Security Issues", Text("None detected")) ]),
      OsintResult(uuid(3), "Subdomains", "Domain Intelligence",
        [ Entry("Total Found", Number(5)),
          Entry("Subdomains", Texts(["blog.example.com", "api.example.com", "mail.example.com",
                                     "dev.example.com", "test.example.com"])) ]),
      OsintResult(uuid(4), "Website Technologies", "Technical Analysis",
        [ Entry("CMS", Text("WordPress")),
          Entry("Server", Text("Nginx")),
          Entry("JavaScript Frameworks", Texts(["React", "jQuery"])),
          Entry("Analytics", Text("Google Analytics")),
          Entry("JavaScript Libraries", Texts(["moment.js", "lodash"])),
          Entry("Security", Texts(["SSL/TLS"])) ]),
      OsintResult(uuid(5), "SSL Certificate", "Security Information",
        [ Entry("Valid", Flag(true)),
          Entry("Issued By", Text("Let's Encrypt")),
          Entry("Issued To", Text(domain)),
          Entry("Valid From", Text("2022-01-15")),
          Entry("Valid Until", Text("2023-01-15")),
          Entry("Key Strength", Text("2048-bit")),
          Entry("Signature Algorithm", Text("SHA-256")) ]) ]
  }

  function EmailResults(email: string, uuid: nat -> string): (rs: seq<OsintResult>)
    ensures |rs| == 4
  {
    [ OsintResult(uuid(0), "Email Validation", "Email Intelligence",
        [ Entry("Valid Format", Flag(true)),
          Entry("Deliverable", Flag(true)),
          Entry("Free Provider", Flag(FreeProvider(email))),
          Entry("Disposable", Flag(false)),
          Entry("MX Records", Texts(["mx.example.com"])),
          Entry("Role Account", Flag(RoleAccount(email))) ]),
      OsintResult(uuid(1), "Data Breach Information", "Security Intelligence",
        [ Entry("Breaches Found", Number(3)),
          Entry("Breach Names", Texts(["ExampleBreachOne (2020)", "ExampleBreachTwo (2021)",
                                       "ExampleBreachThree (2022)"])),
          Entry("Exposed Data", Texts(["Email address", "Password (hashed)", "Name", "Phone number"])),
          Entry("Recommendation", Text("Change passwords and enable 2FA")) ]),
      OsintResult(uuid(2), "Social Media Profiles", "Online Presence",
        [ Entry("LinkedIn", Text("https://linkedin.com/in/example-profile")),
          Entry("Twitter", Text("https://twitter.com/example")),
          Entry("GitHub", Text("https://github.com/example")),
          Entry("Facebook", Text("Not found")),
          Entry("Instagram", Text("Not found")) ]),
      OsintResult(uuid(3), "Domain Association", "Email Intelligence",
        [ Entry("Primary Domain", PrimaryDomain(email)),
          Entry("Associated Domains", Texts(["example.org", "example.net"])),
          Entry("Role", Text("Owner")),
          Entry("WHOIS Records", Number(3)) ]) ]
  }

  function PersonResults(name: string, uuid: nat -> string): (rs: seq<OsintResult>)
    ensures |rs| == 6
  {
    [ OsintResult(uuid(0), "Personal Information", "Personal Intelligence",
        [ Entry("Full Name", Text(name)),
          Entry("Age Range", Text("30-40")),
          Entry("Locations", Texts(["San Francisco, CA", "New York, NY (previous)"])),
          Entry("Occupation", Text("Software Engineer")),
          Entry("Education", Text("Stanford University")),
          Entry("Marital Status", Text("Married")),
          Entry("Languages", Texts(["English", "Spanish"])) ]),
      OsintResult(uuid(1), "Social Media Presence", "Online Presence",
        [ Entry("LinkedIn", Text("https://linkedin.com/in/example-person")),
          Entry("Twitter", Text("https://twitter.com/example_person")),
          Entry("Facebook", Text("https://facebook.com/example.person")),
          Entry("Instagram", Text("https://instagram.com/example_person")),
          Entry("YouTube", Text("Not found")),
          Entry("TikTok", Text("Not found")),
          Entry("GitHub", Text("https://github.com/example-person")) ]),
      OsintResult(uuid(2), "Employment History", "Professional Information",
        [ Entry("Current Employer", Text("Tech Company Inc.")),
          Entry("Position", Text("Senior Software Engineer")),
          Entry("Previous Employers", Texts(["Previous Company Ltd. (2018-2020)", "First Company LLC (2015-2018)"])),
          Entry("Skills", Texts(["JavaScript", "Python", "Cloud Computing", "React", "Node.js"])) ]),
      OsintResult(uuid(3), "Online Activity", "Online Presence",
        [ Entry("Blog", Text("https://example-person-blog.com")),
          Entry("Forums", Texts(["Stack Overflow", "Reddit"])),
          Entry("Publications", Texts(["Medium", "Dev.to"])),
          Entry("Recent Activity", Text("2 weeks ago")) ]),
      OsintResult(uuid(4), "Associated Emails", "Contact Information",
        [ Entry("Primary Email", Text(PrimaryEmail(name))),
          Entry("Secondary Emails", Texts(SecondaryEmails(name))),
          Entry("Verification", Text("Emails have been verified")) ]),
      OsintResult(uuid(5), "Digital Footprint", "Online Presence",
        [ Entry("Websites", Number(2)),
          Entry("Social Profiles", Number(5)),
          Entry("News Mentions", Number(1)),
          Entry("Images", Number(12)),
          Entry("Videos", Number(3)),
          Entry("First Seen Online", Text("2010-05-15")) ]) ]
  }

  /** `performOsintSearch`: the builder for the query's type; any other type
      gives no findings. */
  function PerformOsintSearch(q: Query, uuid: nat -> string): (rs: seq<OsintResult>)
    ensures q.kind == "domain" ==> rs == DomainResults(q.value, uuid)
    ensures q.kind == "email" ==> rs == EmailResults(q.value, uuid)
    ensures q.kind == "person" ==> rs == PersonResults(q.value, uuid)
    ensures |rs| == (if q.kind == "domain" || q.kind == "person" then 6 else if q.kind == "email" then 4 else 0)
  {
    if q.kind == "domain" then DomainResults(q.value, uuid)
    else if q.kind == "email" then EmailResults(q.value, uuid)
    else if q.kind == "person" then PersonResults(q.value, uuid)
    else []
  }

  // ---- properties of the derived fields

  /** The certificate finding is issued to the queried domain. */
  lemma IssuedToDomain(domain: string, uuid: nat -> string)
    ensures var ssl := DomainResults(domain, uuid)[5];
            ssl.title == "SSL Certificate" && Get(ssl.data, "Issued To") == Some(Text(domain))
  {
    var data := DomainResults(domain, uuid)[5].data;
    assert data[0].key != "Issued To" && data[1].key != "Issued To" by {
      assert data[0].key[0] != 'I';
      assert data[1].key[7] == 'B';
    }
    assert data[2..][0] == data[2];
    assert Get(data, "Issued To") == Get(data[1..], "Issued To") == Get(data[2..], "Issued To");
  }

  /** The validation finding flags a free provider exactly when the address
      mentions gmail, yahoo or hotmail, and a role account exactly when it
      starts with admin or info. */
  lemma EmailFlags(email: string, uuid: nat -> string)
    ensures var v := EmailResults(email, uuid)[0];
            && v.title == "Email Validation"
            && v.data[2] == Entry("Free Provider", Flag(FreeProvider(email)))
            && v.data[5] == Entry("Role Account", Flag(RoleAccount(email)))
    ensures FreeProvider(email) <==> Contains(email, "gmail") || Contains(email, "yahoo") || Contains(email, "hotmail")
    ensures RoleAccount(email) <==> StartsWith(email, "admin") || StartsWith(email, "info")
  {
  }

  /** For an address `local@domain` the primary domain is `domain`, and
      without '@' it is undefined. */
  lemma PrimaryDomainOf(local: string, domain: string)
    requires '@' !in local && '@' !in domain
    ensures PrimaryDomain(local + "@" + domain) == Text(domain)
    ensures PrimaryDomain(local) == Undefined
  {
    assert local + "@" + domain == local + ['@'] + domain;
    SplitAfterFree(local, '@', domain);
    assert IndexOf(domain, '@').None?;
    assert IndexOf(local, '@').None?;
  }

  /** With a second '@', only the part between the first two counts. */
  lemma PrimaryDomainStopsAtSecondAt(local: string, domain: string, rest: string)
    requires '@' !in local && '@' !in domain
    ensures PrimaryDomain(local + "@" + domain + "@" + rest) == Text(domain)
  {
    assert local + "@" + domain + "@" + rest == local + ['@'] + (domain + ['@'] + rest);
    SplitAfterFree(local, '@', domain + ['@'] + rest);
    SplitAfterFree(domain, '@', rest);
  }

  /** The lower-cased name keeps its spaces where they were and gains none. */
  lemma SpaceFreeLower(s: string)
    requires ' ' !in s
    ensures ' ' !in ToLower(s)
  {
    assert forall i :: 0 <= i < |s| ==> ToLower(s)[i] == LowerChar(s[i]) && s[i] != ' ';
  }

  /** For a name `first last` (no space in `first`) the addresses are
      `first.last@gmail.com`, `first_last@outlook.com` and
      `first@professional-domain.com`, lower-cased; a later space in `last`
      is kept. */
  lemma PersonEmailsOf(first: string, last: string)
    requires ' ' !in first
    ensures PrimaryEmail(first + " " + last) == ToLower(first) + "." + ToLower(last) + "@gmail.com"
    ensures SecondaryEmails(first + " " + last)
            == [ToLower(first) + "_" + ToLower(last) + "@outlook.com", ToLower(first) + "@professional-domain.com"]
  {
    var lf, ll := ToLower(first), ToLower(last);
    ToLowerConcat(first, " ");
    ToLowerConcat(first + " ", last);
    assert ToLower(" ") == " ";
    assert ToLower(first + " " + last) == lf + [' '] + ll;
    SpaceFreeLower(first);
    IndexOfAfterFree(lf, ' ', ll);
    assert (lf + [' '] + ll)[..|lf|] == lf && (lf + [' '] + ll)[|lf| + 1..] == ll;
    SplitAfterFree(lf, ' ', ll);
  }

  /** A one-word name is only lower-cased, and it is the whole first word. */
  lemma OneWordEmails(name: string)
    requires ' ' !in name
    ensures PrimaryEmail(name) == ToLower(name) + "@gmail.com"
    ensures SecondaryEmails(name) == [ToLower(name) + "@outlook.com", ToLower(name) + "@professional-domain.com"]
  {
    SpaceFreeLower(name);
  }

  /** The personal finding carries the queried name as given. */
  lemma FullNameIsQuery(name: string, uuid: nat -> string)
    ensures var p := PersonResults(name, uuid)[0];
            p.title == "Personal Information" && Get(p.data, "Full Name") == Some(Text(name))
  {
  }
}
