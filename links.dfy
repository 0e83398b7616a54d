/** The address of the web front end, which every link the server mails out
    starts with (src/routes/invitation.route.ts, src/routes/password-reset.route.ts,
    src/templates/emailTemplates.ts). */
module Links {
  import opened Text

  /** Where the front end is served when `FRONTEND_URL` is not set. */
  const DefaultFrontendUrl: string := "http://localhost:5173"

  /** The configured front end, falling back to the development server when the
      variable is unset or empty (`||` treats both alike); `frontendUrl` is
      the variable's value, "" when it is unset. */
  function FrontendBase(frontendUrl: string): (base: string)
    ensures base != ""
    ensures frontendUrl != "" <==> base == frontendUrl
    ensures frontendUrl == "" ==> base == DefaultFrontendUrl
  {
    if frontendUrl == "" then DefaultFrontendUrl else frontendUrl
  }

  /** A front-end page that carries a token: the configured front end, then
      the page's path, then the token. Used for the invitation page
      (`/invite/`) and the reset page (`/reset-password?token=`). */
  function TokenLink(frontendUrl: string, path: string, token: string): (link: string)
    ensures |link| >= |token| && link[|link| - |token|..] == token
    ensures |link| == |FrontendBase(frontendUrl)| + |path| + |token|
    ensures link[..|FrontendBase(frontendUrl)|] == FrontendBase(frontendUrl)
    ensures link[|FrontendBase(frontendUrl)|..|FrontendBase(frontendUrl)| + |path|] == path
    ensures frontendUrl == "" ==> link[..|DefaultFrontendUrl|] == DefaultFrontendUrl
    ensures Contains(link, token)
  {
    var link := FrontendBase(frontendUrl) + path + token;
    assert link == FrontendBase(frontendUrl) + path + token + "";
    ContainsMiddle(FrontendBase(frontendUrl) + path, token, "");
    link
  }
}
