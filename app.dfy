/**
 * The login gate and tab navigation of App.tsx. The component's state hooks are
 * the fields of `AppState`; `handleLogin` and the navigation buttons' `onClick`s
 * are its methods.
 */
module App {
  import Text

  datatype Tab = Home | Letter | Gallery | Chat

  /** The tabs of the four navigation buttons, in the order they are drawn. */
  const NavTabs: seq<Tab> := [Home, Letter, Gallery, Chat]

  const ValidNames: seq<string> := ["shfq", "sfq", "shafaque", "shafq"]
  const ValidPassword: string := "301220"

  /** The hints shown after the 1st..5th consecutive failure. */
  const Hints: seq<string> := [
    "Hmm, that doesn't seem right 💔",
    "Hint: it's all about numbers… 🔢",
    "Hint: think of a special date 💭",
    "Hint: three dates combined into one… 🎂✨",
    "Hint: 6 digits — Her Birthday + His Birthday + The day they met 💫"
  ]

  /** The message shown on the failure that resets the counter. */
  const CalmDown: string := "Take a breath, you'll get it 💕"

  /** The largest value the failure counter holds. */
  const MaxAttempts: nat := 5

  /**
   * The login test: case-folded, trimmed name in the list, password exact. A
   * blank name never passes, and neither does any password but the exact one.
   */
  function CredentialsOk(userName: string, password: string): (ok: bool)
    ensures ok ==> password == ValidPassword && !Text.AllWhitespace(userName)
  {
    var name := Text.Trim(Text.ToLower(userName));
    assert Text.AllWhitespace(userName) ==> name == [] by {
      if Text.AllWhitespace(userName) {
        Text.LowerKeepsWhitespace(userName);
      }
    }
    name in ValidNames && password == ValidPassword
  }

  /** The counter after one more failure from `n`. */
  function AfterFailure(n: nat): (r: nat)
    requires n <= MaxAttempts
    ensures r <= MaxAttempts
    ensures n < MaxAttempts ==> r == n + 1
    ensures n == MaxAttempts ==> r == 0
  {
    if n + 1 <= MaxAttempts then n + 1 else 0
  }

  /** The message shown by a failure that finds the counter at `n`. */
  function FailureMessage(n: nat): (msg: string)
    requires n <= MaxAttempts
    ensures n < MaxAttempts ==> msg == Hints[n]
    ensures n == MaxAttempts ==> msg == CalmDown
  {
    if n < |Hints| then Hints[n] else CalmDown
  }

  /** The counter after `k` consecutive failures from a fresh page. */
  function CounterAfter(k: nat): (n: nat)
    ensures n <= MaxAttempts
  {
    if k == 0 then 0 else AfterFailure(CounterAfter(k - 1))
  }

  /** The counter counts failures modulo six. */
  lemma {:induction false} CounterIsFailuresModSix(k: nat)
    ensures CounterAfter(k) == k % 6
  {
    if k > 0 {
      CounterIsFailuresModSix(k - 1);
    }
  }

  /** Six more failures bring back the same counter and the same message: the hints cycle. */
  lemma HintsArePeriodic(k: nat)
    ensures CounterAfter(k + 6) == CounterAfter(k)
    ensures FailureMessage(CounterAfter(k + 6)) == FailureMessage(CounterAfter(k))
  {
    CounterIsFailuresModSix(k);
    CounterIsFailuresModSix(k + 6);
  }

  /** Starting fresh, the sixth failure shows `CalmDown` and resets the counter to 0. */
  lemma SixthFailureResets()
    ensures FailureMessage(CounterAfter(5)) == CalmDown && CounterAfter(6) == 0
  {
    CounterIsFailuresModSix(5);
    CounterIsFailuresModSix(6);
  }

  /** The password is not trimmed: a leading space is a wrong password. */
  lemma PaddedPasswordFails(userName: string)
    ensures !CredentialsOk(userName, " 301220")
  {
  }

  /** Case and surrounding whitespace in the name make no difference. */
  lemma NameIgnoresCaseAndPadding(pre: string, userName: string, post: string, password: string)
    requires Text.AllWhitespace(pre) && Text.AllWhitespace(post)
    ensures CredentialsOk(pre + Text.ToUpper(userName) + post, password) == CredentialsOk(userName, password)
  {
    var up := Text.ToUpper(userName);
    Text.LowerOfConcat(pre + up, post);
    Text.LowerOfConcat(pre, up);
    Text.LowerKeepsWhitespace(pre);
    Text.LowerKeepsWhitespace(post);
    Text.LowerForgetsCase(userName);
    Text.TrimIgnoresPadding(pre, Text.ToLower(userName), post);
  }

  /**
   * Every name is some whitespace, a core that neither starts nor ends with
   * whitespace, and some more whitespace; the gate opens exactly when the core,
   * lower-cased, is listed and the password is exact.
   */
  lemma CredentialsOkIffListed(pre: string, core: string, post: string, password: string)
    requires Text.AllWhitespace(pre) && Text.AllWhitespace(post)
    requires core == [] || (!Text.IsWhitespace(core[0]) && !Text.IsWhitespace(core[|core| - 1]))
    ensures CredentialsOk(pre + core + post, password) <==>
      Text.ToLower(core) in ValidNames && password == ValidPassword
  {
    CanonicalName(pre, core, post);
  }

  /** The name the gate looks up is the lower-cased core. */
  lemma CanonicalName(pre: string, core: string, post: string)
    requires Text.AllWhitespace(pre) && Text.AllWhitespace(post)
    requires core == [] || (!Text.IsWhitespace(core[0]) && !Text.IsWhitespace(core[|core| - 1]))
    ensures Text.Trim(Text.ToLower(pre + core + post)) == Text.ToLower(core)
  {
    var lower := Text.ToLower(core);
    LowerOfPadded(pre, core, post);
    Text.TrimIgnoresPadding(pre, lower, post);
    if core != [] {
      Text.LowerCharWhitespace(core[0]);
      Text.LowerCharWhitespace(core[|core| - 1]);
    }
    Text.TrimOfTrimmed(lower);
  }

  lemma LowerOfPadded(pre: string, core: string, post: string)
    requires Text.AllWhitespace(pre) && Text.AllWhitespace(post)
    ensures Text.ToLower(pre + core + post) == pre + Text.ToLower(core) + post
  {
    Text.LowerOfConcat(pre + core, post);
    Text.LowerOfConcat(pre, core);
    Text.LowerKeepsWhitespace(pre);
    Text.LowerKeepsWhitespace(post);
  }

  class AppState {
    var userName: string
    var password: string
    var activeTab: Tab
    var loginAttempts: nat
    var errorMsg: string
    var isShaking: bool
    var showWelcome: bool

    /** The failure counter stays within 0..5. */
    ghost predicate Valid()
      reads this
    {
      loginAttempts <= MaxAttempts
    }

    constructor ()
      ensures Valid()
      ensures userName == "" && password == "" && activeTab == Home
      ensures loginAttempts == 0 && errorMsg == "" && !isShaking && !showWelcome
    {
      userName, password, activeTab := "", "", Home;
      loginAttempts, errorMsg, isShaking, showWelcome := 0, "", false, false;
    }

    /** The name field's `onChange`. */
    method EditUserName(value: string)
      requires Valid()
      modifies this`userName
      ensures Valid() && userName == value
    {
      userName := value;
    }

    /** The password field's `onChange`. */
    method EditPassword(value: string)
      requires Valid()
      modifies this`password
      ensures Valid() && password == value
    {
      password := value;
    }

    /**
     * `handleLogin`. Success shows the welcome screen and touches nothing else.
     * A failure shakes the card, bumps the counter and shows the matching hint;
     * the failure that takes the counter past 5 shows `CalmDown` and resets it to 0.
     */
    method HandleLogin()
      requires Valid()
      modifies this`loginAttempts, this`errorMsg, this`isShaking, this`showWelcome
      ensures Valid()
      ensures old(CredentialsOk(userName, password)) ==>
        showWelcome && loginAttempts == old(loginAttempts) &&
        errorMsg == old(errorMsg) && isShaking == old(isShaking)
      ensures !old(CredentialsOk(userName, password)) ==>
        isShaking && showWelcome == old(showWelcome) &&
        loginAttempts == AfterFailure(old(loginAttempts)) &&
        errorMsg == FailureMessage(old(loginAttempts))
    {
      if CredentialsOk(userName, password) {
        showWelcome := true;
      } else {
        var newAttempts := loginAttempts + 1;
        loginAttempts := newAttempts;
        isShaking := true;
        if newAttempts == 1 {
          errorMsg := Hints[0];
        } else if newAttempts == 2 {
          errorMsg := Hints[1];
        } else if newAttempts == 3 {
          errorMsg := Hints[2];
        } else if newAttempts == 4 {
          errorMsg := Hints[3];
        } else if newAttempts == 5 {
          errorMsg := Hints[4];
        } else {
          errorMsg := CalmDown;
          loginAttempts := 0;
        }
      }
    }

    /** Whether the navigation button for `tab` is drawn as active. */
    predicate IsActive(tab: Tab)
      reads this
    {
      activeTab == tab
    }

    /** A navigation button's `onClick`: its own tab, and only it, becomes active. */
    method SelectTab(tab: Tab)
      requires Valid()
      modifies this`activeTab
      ensures Valid() && activeTab == tab
      ensures forall t :: IsActive(t) <==> t == tab
    {
      activeTab := tab;
    }
  }

  /** Exactly one of the four navigation buttons is drawn as active, whatever the state. */
  lemma ExactlyOneTabActive(app: AppState)
    ensures exists k :: (0 <= k < |NavTabs| && app.IsActive(NavTabs[k]) &&
      forall j :: 0 <= j < |NavTabs| && app.IsActive(NavTabs[j]) ==> j == k)
  {
    var k := match app.activeTab
      case Home => 0
      case Letter => 1
      case Gallery => 2
      case Chat => 3;
    assert app.IsActive(NavTabs[k]);
  }

  /** Six wrong logins in a row on a fresh page leave the counter at 0 and the calm-down message. */
  method SixWrongLogins() returns (attempts: nat, message: string)
    ensures attempts == 0 && message == CalmDown
  {
    var app := new AppState();
    app.EditUserName("shfq");
    app.EditPassword("000000");
    app.HandleLogin();
    app.HandleLogin();
    app.HandleLogin();
    app.HandleLogin();
    app.HandleLogin();
    assert app.loginAttempts == 5;
    app.HandleLogin();
    SixthFailureResets();
    attempts, message := app.loginAttempts, app.errorMsg;
  }
}
