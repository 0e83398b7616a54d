/** The mail bodies of src/templates/emailTemplates.ts: the invitation mail
    (HTML and plain text), the welcome mail, and `formatRoleName`, which turns
    a stored role such as `super_admin` into the label `Super Admin`.

    A body is the concatenation of its pieces: the template's text, one piece
    per line, with each interpolated value as a piece of its own. The style
    sheets of the HTML bodies are left out, and the expiry date and time,
    which the source renders with `toLocaleDateString` and
    `toLocaleTimeString`, are parameters. */
module Templates {
  import opened Text
  import opened Roles
  import opened Links
  import Invitations
  import InvitationRoutes

  const OrganizationName: string := "ElBethel Academy"

  // ---------------------------------------------------------------------
  // formatRoleName

  /** The first character upper-cased and the rest lower-cased. */
  function Capitalize(word: string): (r: string)
    ensures |r| == |word|
  {
    if |word| == 0 then "" else [UpperChar(word[0])] + ToLower(word[1..])
  }

  /** Every word capitalised. */
  function CapitalizeAll(words: seq<string>): (r: seq<string>)
    ensures |r| == |words|
  {
    seq(|words|, i requires 0 <= i < |words| => Capitalize(words[i]))
  }

  /** Each underscore-separated word capitalised, the words joined by spaces. */
  function FormatRoleName(role: string): string {
    Join(CapitalizeAll(Split(role, '_')), " ")
  }

  /** A character begins a word: it is the first, or follows an underscore. */
  predicate WordStart(s: string, i: int)
    requires 0 <= i < |s|
  {
    i == 0 || s[i - 1] == '_'
  }

  /** The label read character by character: an underscore becomes a space,
      a letter that begins a word is upper-cased, every other letter
      lower-cased. */
  function TitleCase(s: string): string {
    seq(|s|, i requires 0 <= i < |s| =>
      if s[i] == '_' then ' ' else if WordStart(s, i) then UpperChar(s[i]) else LowerChar(s[i]))
  }

  /** Reading a label back: spaces become underscores, letters lower case. */
  function Unformat(shown: string): string {
    seq(|shown|, i requires 0 <= i < |shown| => if shown[i] == ' ' then '_' else LowerChar(shown[i]))
  }

  lemma TitleCaseSep(a: string, b: string)
    ensures TitleCase(a + ['_'] + b) == TitleCase(a) + " " + TitleCase(b)
  {
    var s := a + ['_'] + b;
    var l, r := TitleCase(s), TitleCase(a) + " " + TitleCase(b);
    forall i | 0 <= i < |s| ensures l[i] == r[i] {
      if i > |a| + 1 {
        assert s[i] == b[i - |a| - 1] && s[i - 1] == b[i - |a| - 2];
      } else if i == |a| + 1 {
        assert s[i] == b[0] && s[i - 1] == '_';
      }
    }
  }

  lemma TitleCaseWord(w: string)
    requires '_' !in w
    ensures TitleCase(w) == Capitalize(w)
  {
    var l, r := TitleCase(w), Capitalize(w);
    forall i | 0 <= i < |w| ensures l[i] == r[i] {
      if i > 0 {
        assert w[i - 1] != '_';
        assert r[i] == ToLower(w[1..])[i - 1];
      }
    }
  }

  lemma {:induction false} SplitWord(w: string, sep: char)
    requires sep !in w
    ensures Split(w, sep) == [w]
  {
    if |w| > 0 {
      SplitWord(w[1..], sep);
      assert [w[0]] + w[1..] == w;
    }
  }

  lemma {:induction false} SplitSep(a: string, b: string, sep: char)
    requires sep !in a
    ensures Split(a + [sep] + b, sep) == [a] + Split(b, sep)
  {
    var s := a + [sep] + b;
    if |a| == 0 {
      assert s == [sep] + b && s[1..] == b;
    } else {
      assert s[1..] == a[1..] + [sep] + b;
      SplitSep(a[1..], b, sep);
      assert [a[0]] + a[1..] == a;
    }
  }

  /** Splitting at the first underscore: the first word's label, a space,
      then the label of the rest. */
  lemma FormatRoleNameSep(a: string, b: string)
    requires '_' !in a
    ensures FormatRoleName(a + ['_'] + b) == Capitalize(a) + " " + FormatRoleName(b)
  {
    SplitSep(a, b, '_');
    var words := Split(b, '_');
    var caps := CapitalizeAll([a] + words);
    assert caps == [Capitalize(a)] + CapitalizeAll(words);
    assert caps[1..] == CapitalizeAll(words);
  }

  /** `formatRoleName` agrees with the character-by-character reading. */
  lemma {:induction false} FormatRoleNameIsTitleCase(s: string)
    ensures FormatRoleName(s) == TitleCase(s)
    decreases |s|
  {
    if '_' !in s {
      SplitWord(s, '_');
      TitleCaseWord(s);
    } else {
      var k := IndexOf(s, '_');
      var a, b := s[..k], s[k + 1..];
      assert s == a + ['_'] + b;
      FormatRoleNameSep(a, b);
      TitleCaseSep(a, b);
      TitleCaseWord(a);
      FormatRoleNameIsTitleCase(b);
    }
  }

  /** The label has the role's length, no underscore, a space exactly where
      the role has an underscore, and each word's first letter upper-cased. */
  lemma FormatRoleNameShape(s: string)
    ensures |FormatRoleName(s)| == |s|
    ensures '_' !in FormatRoleName(s)
    ensures forall i :: 0 <= i < |s| && s[i] == '_' ==> FormatRoleName(s)[i] == ' '
    ensures ' ' !in s ==> forall i :: 0 <= i < |s| ==> (FormatRoleName(s)[i] == ' ' <==> s[i] == '_')
    ensures forall i :: 0 <= i < |s| && s[i] != '_' ==>
      FormatRoleName(s)[i] == if WordStart(s, i) then UpperChar(s[i]) else LowerChar(s[i])
  {
    FormatRoleNameIsTitleCase(s);
  }

  /** A lower-case name without spaces is recovered from its label. */
  lemma FormatRoleNameReversible(s: string)
    requires ' ' !in s && IsLowerCase(s)
    ensures Unformat(FormatRoleName(s)) == s
  {
    FormatRoleNameIsTitleCase(s);
    var t := TitleCase(s);
    forall i | 0 <= i < |s| ensures Unformat(t)[i] == s[i] {
      assert !IsUpper(s[i]);
    }
  }

  lemma RoleNameLowerCase(r: Role)
    ensures ' ' !in RoleName(r) && IsLowerCase(RoleName(r))
  {
  }

  /** No two roles share a label. */
  lemma RoleLabelsDistinct(r1: Role, r2: Role)
    requires FormatRoleName(RoleName(r1)) == FormatRoleName(RoleName(r2))
    ensures r1 == r2
  {
    RoleNameLowerCase(r1);
    RoleNameLowerCase(r2);
    FormatRoleNameReversible(RoleName(r1));
    FormatRoleNameReversible(RoleName(r2));
    RoleNameRoundTrip(r1);
    RoleNameRoundTrip(r2);
  }

  lemma CapitalizeLowerCase(w: string)
    requires |w| > 0 && IsLowerCase(w)
    ensures Capitalize(w) == [UpperChar(w[0])] + w[1..]
  {
    ToLowerIsLowerCase(w[1..]);
  }

  lemma CapitalizeExample(w: string, c: char)
    requires |w| > 0 && '_' !in w && IsLowerCase(w) && UpperChar(w[0]) == c
    ensures TitleCase(w) == [c] + w[1..]
  {
    TitleCaseWord(w);
    CapitalizeLowerCase(w);
  }

  /** The label of a two-word role. */
  lemma FormatSuperAdmin(role: string)
    requires role == RoleName(SuperAdmin)
    ensures FormatRoleName(role) == "Super Admin"
  {
    var a, b := "super", "admin";
    assert role == a + ['_'] + b;
    CapitalizeExample(a, 'S');
    CapitalizeExample(b, 'A');
    TitleCaseSep(a, b);
    FormatRoleNameIsTitleCase(role);
  }

  /** The label of a one-word role. */
  lemma FormatTeacher(role: string)
    requires role == RoleName(Teacher)
    ensures FormatRoleName(role) == "Teacher"
  {
    FormatRoleNameIsTitleCase(role);
    CapitalizeExample(role, 'T');
  }

  // ---------------------------------------------------------------------
  // The invitation mail

  /** What the invitation mail is built from. */
  datatype InvitationEmailData = InvitationEmailData(
    email: string, role: Role, invitedBy: Invitations.InviterDetails, invitationLink: string)

  // The text of the HTML template between its interpolations, in order.
  const InvitationHtml0: string :=
    "\n"
    + "<!DOCTYPE html>\n"
    + "<html lang=\"en\">\n"
    + "<head>\n"
    + "    <meta charset=\"UTF-8\">\n"
    + "    <meta name=\"viewport\" content=\"width=device-width, initial-scale=1.0\">\n"
    + "    <title>Invitation to join "
  const InvitationHtml1: string :=
    "</title>\n"
    + "</head>\n"
    + "<body>\n"
    + "    <div class=\"container\">\n"
    + "        <div class=\"header\">\n"
    + "            <h1>"
  const InvitationHtml2: string :=
    "</h1>\n"
    + "            <p>You're invited to join our learning community</p>\n"
    + "        </div>\n"
    + "        \n"
    + "        <div class=\"content\">\n"
    + "            <div class=\"greeting\">\n"
    + "                Hello,\n"
    + "            </div>\n"
    + "            \n"
    + "            <p>Great news! <strong>"
  const InvitationHtml3: string := "</strong> has invited you to join <strong>"
  const InvitationHtml4: string := "</strong> as a "
  const InvitationHtml5: string :=
    ".</p>\n"
    + "            \n"
    + "            <div class=\"invitation-details\">\n"
    + "                <div class=\"detail-row\">\n"
    + "                    <div class=\"detail-label\">Your Role:</div>\n"
    + "                    <div class=\"detail-value\"><span class=\"role-badge\">"
  const InvitationHtml6: string :=
    "</span></div>\n"
    + "                </div>\n"
    + "                <div class=\"detail-row\">\n"
    + "                    <div class=\"detail-label\">Invited by:</div>\n"
    + "                    <div class=\"detail-value\">"
  const InvitationHtml7: string := " ("
  const InvitationHtml8: string :=
    ")</div>\n"
    + "                </div>\n"
    + "                <div class=\"detail-row\">\n"
    + "                    <div class=\"detail-label\">Email:</div>\n"
    + "                    <div class=\"detail-value\">"
  const InvitationHtml9: string :=
    "</div>\n"
    + "                </div>\n"
    + "            </div>\n"
    + "            \n"
    + "            <div class=\"cta-section\">\n"
    + "                <p style=\"margin: 0 0 15px 0; font-size: 16px; color: #374151;\">\n"
    + "                    <strong>Ready to get started?</strong><br>\n"
    + "                    Click the button below to accept your invitation and create your account.\n"
    + "                </p>\n"
    + "                "
  const InvitationHtml10: string :=
    " class=\"cta-button\">Accept Invitation & Create Account</a>\n"
    + "            </div>\n"
    + "            \n"
    + "            <div class=\"expiry-warning\">\n"
    + "                <strong>\U{23F0} Time Sensitive:</strong> This invitation expires on <strong>"
  const InvitationHtml11: string := "</strong> at <strong>"
  const InvitationHtml12: string :=
    "</strong>\n"
    + "            </div>\n"
    + "            \n"
    + "            <div class=\"security-note\">\n"
    + "                <strong>\U{1F512} Security Note:</strong> This invitation is specifically for "
  const InvitationHtml13: string :=
    ". \n"
    + "                If you didn't expect this invitation or believe this is a mistake, please contact "
  const InvitationHtml14: string := " at "
  const InvitationHtml15: string :=
    ".\n"
    + "            </div>\n"
    + "            \n"
    + "            <p style=\"margin-top: 30px;\">\n"
    + "                If you're unable to click the button above, you can copy and paste this link into your browser:\n"
    + "            </p>\n"
    + "            <p style=\"word-break: break-all; background-color: #f3f4f6; padding: 10px; border-radius: 4px; font-family: monospace; font-size: 14px;\">"
  const InvitationHtml16: string :=
    "\n"
    + "        </div>\n"
    + "        \n"
    + "        <div class=\"footer\">\n"
    + "            <p><strong>"
  const InvitationHtml17: string :=
    "</strong></p>\n"
    + "            <p>This is an automated message. Please do not reply to this email.</p>\n"
    + "            <p>If you need assistance, please contact our support team.</p>\n"
    + "        </div>\n"
    + "    </div>\n"
    + "</body>\n"
    + "</html>"

  /** The pieces of the HTML invitation mail, in order. */
  function InvitationHtmlParts(d: InvitationEmailData, expiryDate: string, expiryTime: string): seq<string> {
    [
      InvitationHtml0,
      OrganizationName,
      InvitationHtml1,
      OrganizationName,
      InvitationHtml2,
      d.invitedBy.name,
      InvitationHtml3,
      OrganizationName,
      InvitationHtml4,
      FormatRoleName(RoleName(d.role)),
      InvitationHtml5,
      FormatRoleName(RoleName(d.role)),
      InvitationHtml6,
      d.invitedBy.name,
      InvitationHtml7,
      FormatRoleName(RoleName(d.invitedBy.role)),
      InvitationHtml8,
      d.email,
      InvitationHtml9,
      "<a href=\"" + d.invitationLink + "\"",
      InvitationHtml10,
      expiryDate,
      InvitationHtml11,
      expiryTime,
      InvitationHtml12,
      d.email,
      InvitationHtml13,
      d.invitedBy.name,
      InvitationHtml14,
      d.invitedBy.email,
      InvitationHtml15,
      "\n                " + d.invitationLink + "\n            </p>",
      InvitationHtml16,
      OrganizationName,
      InvitationHtml17
    ]
  }

  /** `getInvitationEmailHTML`; `expiryDate` and `expiryTime` are the
      rendered expiry. */
  function InvitationEmailHtml(d: InvitationEmailData, expiryDate: string, expiryTime: string): string {
    Concat(InvitationHtmlParts(d, expiryDate, expiryTime))
  }

  // The text of the plain-text template between its interpolations, in order.
  const InvitationText0: string := "\n"
  const InvitationText1: string :=
    "\n"
    + "Hello,\n"
    + "\n"
  const InvitationText2: string := " has invited you to join "
  const InvitationText3: string := " as a "
  const InvitationText4: string :=
    ".\n"
    + "\n"
    + "INVITATION DETAILS:\n"
    + "- Your Role: "
  const InvitationText5: string :=
    "\n"
    + "- Invited by: "
  const InvitationText6: string := " ("
  const InvitationText7: string :=
    ")\n"
    + "- Email: "
  const InvitationText8: string :=
    "\n"
    + "\n"
    + "ACCEPT YOUR INVITATION:\n"
    + "To accept this invitation and create your account, please visit:"
  const InvitationText9: string :=
    "\n"
    + "IMPORTANT: This invitation expires on "
  const InvitationText10: string := " at "
  const InvitationText11: string :=
    "\n"
    + "\n"
    + "SECURITY NOTE:\n"
    + "This invitation is specifically for "
  const InvitationText12: string := ". If you didn't expect this invitation or believe this is a mistake, please contact "
  const InvitationText13: string := " at "
  const InvitationText14: string :=
    ".\n"
    + "\n"
    + "---\n"
  const InvitationText15: string :=
    "\n"
    + "This is an automated message. Please do not reply to this email.\n"
    + "If you need assistance, please contact our support team.\n"

  /** The pieces of the plain-text invitation mail, in order. */
  function InvitationTextParts(d: InvitationEmailData, expiryDate: string, expiryTime: string): seq<string> {
    [
      InvitationText0,
      "INVITATION TO JOIN " + ToUpper(OrganizationName) + "\n",
      InvitationText1,
      d.invitedBy.name,
      InvitationText2,
      OrganizationName,
      InvitationText3,
      FormatRoleName(RoleName(d.role)),
      InvitationText4,
      FormatRoleName(RoleName(d.role)),
      InvitationText5,
      d.invitedBy.name,
      InvitationText6,
      FormatRoleName(RoleName(d.invitedBy.role)),
      InvitationText7,
      d.email,
      InvitationText8,
      "\n" + d.invitationLink + "\n",
      InvitationText9,
      expiryDate,
      InvitationText10,
      expiryTime,
      InvitationText11,
      d.email,
      InvitationText12,
      d.invitedBy.name,
      InvitationText13,
      d.invitedBy.email,
      InvitationText14,
      OrganizationName,
      InvitationText15
    ]
  }

  /** `getInvitationEmailText`. */
  function InvitationEmailText(d: InvitationEmailData, expiryDate: string, expiryTime: string): string {
    Concat(InvitationTextParts(d, expiryDate, expiryTime))
  }

  /** The HTML mail links to the invitation from its button, and prints the
      link on a line of its own to be copied. */
  lemma InvitationHtmlLinks(d: InvitationEmailData, expiryDate: string, expiryTime: string)
    ensures Contains(InvitationEmailHtml(d, expiryDate, expiryTime), "<a href=\"" + d.invitationLink + "\"")
    ensures Contains(InvitationEmailHtml(d, expiryDate, expiryTime),
                     "\n                " + d.invitationLink + "\n            </p>")
  {
    var parts := InvitationHtmlParts(d, expiryDate, expiryTime);
    ContainsMember(parts, "<a href=\"" + d.invitationLink + "\"");
    ContainsMember(parts, "\n                " + d.invitationLink + "\n            </p>");
  }

  /** The HTML mail names the invitee and the role offered. */
  lemma InvitationHtmlNamesInvitee(d: InvitationEmailData, expiryDate: string, expiryTime: string)
    ensures Contains(InvitationEmailHtml(d, expiryDate, expiryTime), d.email)
    ensures Contains(InvitationEmailHtml(d, expiryDate, expiryTime), FormatRoleName(RoleName(d.role)))
    ensures Contains(InvitationEmailHtml(d, expiryDate, expiryTime), OrganizationName)
  {
    var parts := InvitationHtmlParts(d, expiryDate, expiryTime);
    ContainsMember(parts, d.email);
    ContainsMember(parts, FormatRoleName(RoleName(d.role)));
    ContainsMember(parts, OrganizationName);
  }

  /** The HTML mail names the inviter: name, address and role. */
  lemma InvitationHtmlNamesInviter(d: InvitationEmailData, expiryDate: string, expiryTime: string)
    ensures Contains(InvitationEmailHtml(d, expiryDate, expiryTime), d.invitedBy.name)
    ensures Contains(InvitationEmailHtml(d, expiryDate, expiryTime), d.invitedBy.email)
    ensures Contains(InvitationEmailHtml(d, expiryDate, expiryTime), FormatRoleName(RoleName(d.invitedBy.role)))
  {
    var parts := InvitationHtmlParts(d, expiryDate, expiryTime);
    ContainsMember(parts, d.invitedBy.name);
    ContainsMember(parts, d.invitedBy.email);
    ContainsMember(parts, FormatRoleName(RoleName(d.invitedBy.role)));
  }

  /** The HTML mail says when the invitation expires. */
  lemma InvitationHtmlExpiry(d: InvitationEmailData, expiryDate: string, expiryTime: string)
    ensures Contains(InvitationEmailHtml(d, expiryDate, expiryTime), expiryDate)
    ensures Contains(InvitationEmailHtml(d, expiryDate, expiryTime), expiryTime)
  {
    var parts := InvitationHtmlParts(d, expiryDate, expiryTime);
    ContainsMember(parts, expiryDate);
    ContainsMember(parts, expiryTime);
  }

  /** The plain-text mail opens with the organisation's name in capitals and
      puts the link on a line of its own. */
  lemma InvitationTextLinks(d: InvitationEmailData, expiryDate: string, expiryTime: string)
    ensures Contains(InvitationEmailText(d, expiryDate, expiryTime), "INVITATION TO JOIN " + ToUpper(OrganizationName) + "\n")
    ensures Contains(InvitationEmailText(d, expiryDate, expiryTime), "\n" + d.invitationLink + "\n")
  {
    var parts := InvitationTextParts(d, expiryDate, expiryTime);
    ContainsMember(parts, "INVITATION TO JOIN " + ToUpper(OrganizationName) + "\n");
    ContainsMember(parts, "\n" + d.invitationLink + "\n");
  }

  /** The plain-text mail names the invitee and the role offered. */
  lemma InvitationTextNamesInvitee(d: InvitationEmailData, expiryDate: string, expiryTime: string)
    ensures Contains(InvitationEmailText(d, expiryDate, expiryTime), d.email)
    ensures Contains(InvitationEmailText(d, expiryDate, expiryTime), FormatRoleName(RoleName(d.role)))
  {
    var parts := InvitationTextParts(d, expiryDate, expiryTime);
    ContainsMember(parts, d.email);
    ContainsMember(parts, FormatRoleName(RoleName(d.role)));
  }

  /** The plain-text mail names the inviter: name, address and role. */
  lemma InvitationTextNamesInviter(d: InvitationEmailData, expiryDate: string, expiryTime: string)
    ensures Contains(InvitationEmailText(d, expiryDate, expiryTime), d.invitedBy.name)
    ensures Contains(InvitationEmailText(d, expiryDate, expiryTime), d.invitedBy.email)
    ensures Contains(InvitationEmailText(d, expiryDate, expiryTime), FormatRoleName(RoleName(d.invitedBy.role)))
  {
    var parts := InvitationTextParts(d, expiryDate, expiryTime);
    ContainsMember(parts, d.invitedBy.name);
    ContainsMember(parts, d.invitedBy.email);
    ContainsMember(parts, FormatRoleName(RoleName(d.invitedBy.role)));
  }

  /** The plain-text mail says when the invitation expires. */
  lemma InvitationTextExpiry(d: InvitationEmailData, expiryDate: string, expiryTime: string)
    ensures Contains(InvitationEmailText(d, expiryDate, expiryTime), expiryDate)
    ensures Contains(InvitationEmailText(d, expiryDate, expiryTime), expiryTime)
  {
    var parts := InvitationTextParts(d, expiryDate, expiryTime);
    ContainsMember(parts, expiryDate);
    ContainsMember(parts, expiryTime);
  }

  /** Text that holds a link wrapped in other text holds the link's token. */
  lemma WrappedLinkCarriesToken(body: string, pre: string, post: string, frontendUrl: string, token: string)
    requires Contains(body, pre + InvitationRoutes.InvitationLink(frontendUrl, token) + post)
    ensures Contains(body, token)
  {
    var link := InvitationRoutes.InvitationLink(frontendUrl, token);
    ContainsMiddle(pre, link, post);
    ContainsTrans(body, pre + link + post, link);
    ContainsTrans(body, link, token);
  }

  /** Both invitation mails for a link the invitation route built carry the
      invitation's token. */
  lemma InvitationMailCarriesToken(d: InvitationEmailData, expiryDate: string, expiryTime: string,
                                   frontendUrl: string, token: string)
    requires d.invitationLink == InvitationRoutes.InvitationLink(frontendUrl, token)
    ensures Contains(InvitationEmailHtml(d, expiryDate, expiryTime), token)
    ensures Contains(InvitationEmailText(d, expiryDate, expiryTime), token)
  {
    InvitationHtmlLinks(d, expiryDate, expiryTime);
    WrappedLinkCarriesToken(InvitationEmailHtml(d, expiryDate, expiryTime), "<a href=\"", "\"", frontendUrl, token);
    InvitationTextLinks(d, expiryDate, expiryTime);
    WrappedLinkCarriesToken(InvitationEmailText(d, expiryDate, expiryTime), "\n", "\n", frontendUrl, token);
  }

  // ---------------------------------------------------------------------
  // The welcome mail

  /** What the welcome mail is built from. */
  datatype WelcomeData = WelcomeData(name: string, email: string, role: Role, username: string)

  // The text of the welcome template between its interpolations, in order.
  const Welcome0: string :=
    "\n"
    + "<!DOCTYPE html>\n"
    + "<html lang=\"en\">\n"
    + "<head>\n"
    + "    <meta charset=\"UTF-8\">\n"
    + "    <meta name=\"viewport\" content=\"width=device-width, initial-scale=1.0\">\n"
    + "    <title>Welcome to "
  const Welcome1: string :=
    "</title>\n"
    + "</head>\n"
    + "<body>\n"
    + "    <div class=\"container\">\n"
    + "        <div class=\"header\">\n"
    + "            <h1>\U{1F389} Welcome to "
  const Welcome2: string :=
    "!</h1>\n"
    + "        </div>\n"
    + "        \n"
    + "        <div class=\"content\">\n"
    + "            <div class=\"welcome-badge\">Account Created Successfully</div>\n"
    + "            \n"
    + "            <p>Dear "
  const Welcome3: string :=
    ",</p>\n"
    + "            \n"
    + "            <p>Congratulations! Your account has been successfully created and you are now a member of our learning community.</p>\n"
    + "            \n"
    + "            <div class=\"user-info\">\n"
    + "                <h3 style=\"margin-top: 0;\">Your Account Details:</h3>\n"
    + "                <p><strong>Name:</strong> "
  const Welcome4: string :=
    "</p>\n"
    + "                <p><strong>Email:</strong> "
  const Welcome5: string :=
    "</p>\n"
    + "                <p><strong>Username:</strong> "
  const Welcome6: string :=
    "</p>\n"
    + "                <p><strong>Role:</strong> "
  const Welcome7: string :=
    "</p>\n"
    + "            </div>\n"
    + "            \n"
    + "            <div class=\"cta-section\">\n"
    + "                <p style=\"margin: 0 0 15px 0; font-size: 16px;\">\n"
    + "                    <strong>Ready to explore?</strong><br>\n"
    + "                    Sign in to your account and start your learning journey.\n"
    + "                </p>\n"
    + "                "
  const Welcome8: string :=
    " class=\"cta-button\">Sign In to Your Account</a>\n"
    + "            </div>\n"
    + "            \n"
    + "            <p>If you have any questions or need assistance getting started, don't hesitate to reach out to our support team.</p>\n"
    + "            \n"
    + "            <p>Welcome aboard!</p>\n"
    + "        </div>\n"
    + "        \n"
    + "        <div class=\"footer\">\n"
    + "            <p><strong>"
  const Welcome9: string :=
    "</strong></p>\n"
    + "            <p>This is an automated message. Please do not reply to this email.</p>\n"
    + "        </div>\n"
    + "    </div>\n"
    + "</body>\n"
    + "</html>"

  /** The pieces of the welcome mail, in order. */
  function WelcomeHtmlParts(u: WelcomeData, frontendUrl: string): seq<string> {
    [
      Welcome0,
      OrganizationName,
      Welcome1,
      OrganizationName,
      Welcome2,
      u.name,
      Welcome3,
      u.name,
      Welcome4,
      u.email,
      Welcome5,
      u.username,
      Welcome6,
      FormatRoleName(RoleName(u.role)),
      Welcome7,
      "<a href=\"" + FrontendBase(frontendUrl) + "/signin\"",
      Welcome8,
      OrganizationName,
      Welcome9
    ]
  }

  /** `getWelcomeEmailHTML`; `frontendUrl` is `FRONTEND_URL`, "" when unset. */
  function WelcomeEmailHtml(u: WelcomeData, frontendUrl: string): string {
    Concat(WelcomeHtmlParts(u, frontendUrl))
  }

  /** The welcome mail names the new member, their login and role, and links
      to the sign-in page of the front end. */
  lemma WelcomeHtmlMentions(u: WelcomeData, frontendUrl: string)
    ensures var html := WelcomeEmailHtml(u, frontendUrl);
      Contains(html, u.name) && Contains(html, u.email) && Contains(html, u.username)
      && Contains(html, FormatRoleName(RoleName(u.role)))
      && Contains(html, "<a href=\"" + FrontendBase(frontendUrl) + "/signin\"")
  {
    var parts := WelcomeHtmlParts(u, frontendUrl);
    ContainsMember(parts, u.name);
    ContainsMember(parts, u.email);
    ContainsMember(parts, u.username);
    ContainsMember(parts, FormatRoleName(RoleName(u.role)));
    ContainsMember(parts, "<a href=\"" + FrontendBase(frontendUrl) + "/signin\"");
  }
}
