/** The wallet button of `frontend/src/components/WalletConnect.tsx`: which of
    its four views it shows, the network check it runs for a connected
    wallet, the dropdown with its disconnect entry, and the login and switch
    handlers that log failures instead of raising them.

    Privy's session (`authenticated`, `user.wallet.address`) and the wallet's
    answers are parameters; the rendered markup is reduced to the view's
    kind and the text it carries. */
module WalletConnect {
  import opened Base
  import Text
  import opened Network

  /** What Privy reports: whether the user is authenticated and the wallet
      address, if any. */
  datatype Session = Session(authenticated: bool, address: Option<string>)

  /** The component's own state: `showDropdown`, `isCorrectNetwork`,
      `isCheckingNetwork`. */
  datatype UiState = UiState(showDropdown: bool, correctNetwork: bool, checking: bool)

  /** The initial state: every flag false. */
  const Initial := UiState(false, false, false)

  /** What the component renders. */
  datatype View =
    | ConnectView
    | CheckingView
    | SwitchView
    | AddressView(text: string, dropdownOpen: bool)

  /** `formatAddress`: the first six characters, `...`, and the last four. */
  function FormatAddress(address: string): (r: string)
    ensures var head := Min(|address|, 6);
            var tail := Min(|address|, 4);
            && |r| == head + 3 + tail
            && r[..head] == address[..head]
            && r[head..head + 3] == "..."
            && r[head + 3..] == address[|address| - tail..]
  {
    Text.Take(address, 6) + "..." + Text.TakeLast(address, 4)
  }

  /** A wallet address (`0x` and forty digits) is shown in thirteen
      characters that keep its `0x`, its first four digits and its last four. */
  lemma FormatWalletAddress(address: string)
    requires |address| == 42 && address[..2] == "0x"
    ensures var r := FormatAddress(address);
            |r| == 13 && r[..2] == "0x" && r[2..6] == address[2..6]
            && r[6..9] == "..." && r[9..] == address[38..]
  {
    var r := FormatAddress(address);
    assert r[..6] == address[..6];
    assert r[..2] == r[..6][..2] && address[..2] == address[..6][..2];
    assert r[2..6] == r[..6][2..6] && address[2..6] == address[..6][2..6];
  }

  /** The effect's guard: the network is checked only for an authenticated
      session with a non-empty wallet address. */
  predicate CheckRuns(session: Session)
  {
    session.authenticated && Present(session.address)
  }

  /** The view chosen by the component's chain of early returns. */
  function Render(session: Session, ui: UiState): (v: View)
    ensures v == ConnectView <==> !CheckRuns(session)
    ensures v == CheckingView <==> CheckRuns(session) && ui.checking
    ensures v == SwitchView <==> CheckRuns(session) && !ui.checking && !ui.correctNetwork
    ensures v.AddressView? <==> CheckRuns(session) && !ui.checking && ui.correctNetwork
    ensures v.AddressView? ==> v.text == FormatAddress(session.address.value) && v.dropdownOpen == ui.showDropdown
  {
    if !CheckRuns(session) then ConnectView
    else if ui.checking then CheckingView
    else if !ui.correctNetwork then SwitchView
    else AddressView(FormatAddress(session.address.value), ui.showDropdown)
  }

  /** One run of the effect's `checkNetwork`: the states it passes through,
      in order. It sets `isCheckingNetwork`, awaits `isBaseMainnet` (which
      never raises), stores its answer and clears the flag; without a
      connected wallet it does nothing. */
  function CheckNetwork(session: Session, ui: UiState, hasProvider: bool, answer: ChainIdAnswer): (states: seq<UiState>)
    ensures |states| == 0 <==> !CheckRuns(session)
    ensures |states| > 0 ==>
              (&& |states| == 2
               && states[0] == ui.(checking := true)
               && states[1] == ui.(checking := false, correctNetwork := IsBaseMainnet(hasProvider, answer)))
  {
    if CheckRuns(session) then
      var onBase := IsBaseMainnet(hasProvider, answer);
      [ui.(checking := true), ui.(checking := false, correctNetwork := onBase)]
    else []
  }

  /** The state once a check is over: the last state it passed through, or
      the unchanged state when it did not run. */
  function AfterCheck(session: Session, ui: UiState, hasProvider: bool, answer: ChainIdAnswer): (after: UiState)
    ensures after.showDropdown == ui.showDropdown
    ensures !CheckRuns(session) ==> after == ui
  {
    var states := CheckNetwork(session, ui, hasProvider, answer);
    if |states| == 0 then ui else states[|states| - 1]
  }

  /** While the check runs, a connected wallet sees "Checking network...";
      once it is over, the address when the wallet is on Base and the switch
      button otherwise. */
  lemma CheckDecidesView(session: Session, ui: UiState, hasProvider: bool, answer: ChainIdAnswer)
    requires CheckRuns(session)
    ensures Render(session, CheckNetwork(session, ui, hasProvider, answer)[0]) == CheckingView
    ensures var v := Render(session, AfterCheck(session, ui, hasProvider, answer));
            (v.AddressView? <==> IsBaseMainnet(hasProvider, answer))
            && (v == SwitchView <==> !IsBaseMainnet(hasProvider, answer))
  {
  }

  /** A wallet answering with the chain id as the client writes it ends on
      the address view. */
  lemma BaseWalletSeesAddress(session: Session, ui: UiState)
    requires CheckRuns(session)
    ensures Render(session, AfterCheck(session, ui, true, ChainId(BaseChainIdHex))).AddressView?
  {
    BaseRecognised();
    CheckDecidesView(session, ui, true, ChainId(BaseChainIdHex));
  }

  /** Without a connected wallet the check leaves the state alone and the
      connect view stays. */
  lemma DisconnectedNeverChecks(session: Session, ui: UiState, hasProvider: bool, answer: ChainIdAnswer)
    requires !CheckRuns(session)
    ensures AfterCheck(session, ui, hasProvider, answer) == ui
    ensures Render(session, AfterCheck(session, ui, hasProvider, answer)) == ConnectView
  {
  }

  /** Before its first check completes, a connected wallet is shown the
      switch button: the flags start false and the effect runs after the
      first render. */
  lemma FirstRenderShowsSwitch(session: Session)
    requires CheckRuns(session)
    ensures Render(session, Initial) == SwitchView
  {
  }

  /** Clicking the address button flips the dropdown and nothing else. */
  function Toggle(ui: UiState): (r: UiState)
    ensures r.showDropdown != ui.showDropdown
    ensures r.correctNetwork == ui.correctNetwork && r.checking == ui.checking
  {
    ui.(showDropdown := !ui.showDropdown)
  }

  /** Two clicks restore the state. */
  lemma ToggleTwice(ui: UiState)
    ensures Toggle(Toggle(ui)) == ui
  {
  }

  /** Toggling on the address view opens or closes the dropdown it shows. */
  lemma ToggleShowsDropdown(session: Session, ui: UiState)
    requires Render(session, ui).AddressView?
    ensures Render(session, Toggle(ui)).AddressView?
    ensures Render(session, Toggle(ui)).dropdownOpen == !Render(session, ui).dropdownOpen
  {
  }

  /** "Disconnect Wallet": Privy's `logout` ends the session, and the
      dropdown closes. */
  function Disconnect(session: Session, ui: UiState): (r: (Session, UiState))
    ensures !r.0.authenticated
    ensures !r.1.showDropdown
    ensures r.1.correctNetwork == ui.correctNetwork && r.1.checking == ui.checking
  {
    (session.(authenticated := false), ui.(showDropdown := false))
  }

  /** After disconnecting, the connect view is shown and no check runs. */
  lemma DisconnectShowsConnect(session: Session, ui: UiState)
    ensures var (s, u) := Disconnect(session, ui);
            Render(s, u) == ConnectView && !CheckRuns(s)
  {
  }

  /** A line written with `console.log` or `console.error`: its text and the
      error passed alongside it, if any. */
  datatype LogLine = LogLine(text: string, error: Option<string>)

  const AttemptingLogin := "Attempting to login with Privy..."
  const LoginFailed := "Login failed:"
  const SwitchNetworkFailed := "Failed to switch network:"

  /** Privy's `login`: the session it yields, or the error it raises. */
  datatype LoginReply = LoggedIn(session: Session) | LoginRefused(error: string)

  /** `handleLogin`: logs the attempt, then either takes the new session or
      logs the error; it never raises. */
  function HandleLogin(session: Session, reply: LoginReply): (r: (Session, seq<LogLine>))
    ensures |r.1| >= 1 && r.1[0] == LogLine(AttemptingLogin, None)
    ensures reply.LoginRefused? <==> |r.1| == 2
    ensures reply.LoginRefused? ==> r.0 == session && r.1[1] == LogLine(LoginFailed, Some(reply.error))
    ensures reply.LoggedIn? ==> r.0 == reply.session
  {
    match reply
    case LoggedIn(s) => (s, [LogLine(AttemptingLogin, None)])
    case LoginRefused(e) => (session, [LogLine(AttemptingLogin, None), LogLine(LoginFailed, Some(e))])
  }

  /** A refused login leaves a disconnected user on the connect view. */
  lemma RefusedLoginStaysOnConnect(session: Session, ui: UiState, error: string)
    requires !CheckRuns(session)
    ensures Render(HandleLogin(session, LoginRefused(error)).0, ui) == ConnectView
  {
  }

  /** `handleNetworkSwitch`: the requests `switchToBaseMainnet` sends, and
      its error logged instead of raised. */
  function HandleNetworkSwitch(hasProvider: bool, switchReply: WalletReply, addReply: WalletReply): (r: (seq<WalletRequest>, seq<LogLine>))
    ensures |r.1| <= 1
    ensures |r.1| == 0 <==> hasProvider && (switchReply.Done? || (IsUnrecognizedChain(switchReply) && addReply.Done?))
    ensures !hasProvider ==> r == ([], [LogLine(SwitchNetworkFailed, Some(NoProvider))])
    ensures hasProvider ==> |r.0| >= 1 && r.0[0] == SwitchChain(BaseChainIdHex)
  {
    var a := SwitchToBaseMainnet(hasProvider, switchReply, addReply);
    match a.error
    case None => (a.requests, [])
    case Some(e) => (a.requests, [LogLine(SwitchNetworkFailed, Some(e))])
  }

  /** The logged error is the one `switchToBaseMainnet` would have raised. */
  lemma SwitchLogsHelperError(hasProvider: bool, switchReply: WalletReply, addReply: WalletReply)
    ensures var a := SwitchToBaseMainnet(hasProvider, switchReply, addReply);
            var r := HandleNetworkSwitch(hasProvider, switchReply, addReply);
            r.0 == a.requests
            && (a.error.Some? <==> r.1 == [LogLine(SwitchNetworkFailed, a.error)])
  {
  }
}
