/** The command router of usage_reporting_bot.py: who counts as a
    superuser (lines 80-91), how a chat message is recognised as a command
    (lines 100-146, the regular expressions written out as parsers over the
    string, anchored at the start only as `re.match` is), which commands a
    caller may run, and the help text (lines 148-164). What a command then
    does (database reports, the balance API, the SQL assistant) is named by
    an `Action` and not modelled here. */
module Commands {
  import opened Wrappers
  import Text

  /** The `role` and `email` fields of `__user__`. */
  datatype User = User(role: string, email: string)

  /** The comma-separated `SUPERUSERS` valve, each entry stripped. */
  function SuperuserEntries(superusers: string): (entries: seq<string>)
    ensures var parts := Text.Split(superusers, ',');
            |entries| == |parts| && forall i :: 0 <= i < |parts| ==> entries[i] == Text.Strip(parts[i])
  {
    var parts := Text.Split(superusers, ',');
    seq(|parts|, i requires 0 <= i < |parts| => Text.Strip(parts[i]))
  }

  /** Lines 80-91: an admin, or a user whose email equals one of the
      stripped entries of the comma-separated `SUPERUSERS` list. */
  function IsSuperuser(u: User, superusers: string): (b: bool)
    ensures u.role == "admin" ==> b
    ensures u.role != "admin" ==>
              (b <==> exists i :: 0 <= i < |Text.Split(superusers, ',')| && Text.Strip(Text.Split(superusers, ',')[i]) == u.email)
  {
    var entries := SuperuserEntries(superusers);
    u.role == "admin" || u.email in entries
  }

  /** A list written as trimmed emails separated by commas, with any
      whitespace around each entry, names exactly those emails. */
  lemma SuperuserOfList(entries: seq<string>, emails: seq<string>, u: User)
    requires |entries| == |emails| >= 1
    requires forall i :: 0 <= i < |entries| ==> ',' !in entries[i] && Text.Strip(entries[i]) == emails[i]
    requires u.role != "admin"
    ensures IsSuperuser(u, Text.Join(entries, [','])) <==> u.email in emails
  {
    Text.SplitJoin(entries, ',');
    if u.email in emails {
      var i :| 0 <= i < |emails| && emails[i] == u.email;
      assert Text.Strip(Text.Split(Text.Join(entries, [',']), ',')[i]) == u.email;
    }
  }

  /** With the default empty `SUPERUSERS`, the list holds one empty entry:
      a non-admin is a superuser exactly when their email is empty. */
  lemma DefaultSuperusers(u: User)
    requires u.role != "admin"
    ensures IsSuperuser(u, "") <==> u.email == ""
  {
    assert Text.Split("", ',') == [""];
    Text.StripTrimmed("");
    if u.email == "" {
      assert Text.Strip(Text.Split("", ',')[0]) == u.email;
    }
  }

  // ---------------------------------------------------------------------
  // Recognising commands (lines 100-146)

  const UsageStats: string := "/usage_stats"
  const RunSqlPrefix: string := "/run_sql "
  const AskPrefix: string := "/ask "

  /** Lines 113, 122, 130: the day count when none is given. */
  const DefaultDays: nat := 30

  /** The optional group `(?:\s+(\d+)d)?` at the start of `s`: whitespace,
      a run of digits and a `d` give the digits' value; anything else
      leaves the group empty and the day count at its default. Both runs
      are taken whole, since a shorter one cannot be followed by what the
      pattern needs next. */
  function OptionalDays(s: string): (d: nat)
    ensures forall i, j {:trigger DaysAt(s, i, j)} :: DaysAt(s, i, j) ==> d == Text.DigitsValue(s[i..j])
    ensures (forall i, j :: !DaysAt(s, i, j)) ==> d == DefaultDays
  {
    DaysAtUnique(s);
    var n := Text.LeadingSpaces(s);
    var k := Text.LeadingDigits(s[n..]);
    if 1 <= n && 1 <= k && n + k < |s| && s[n + k] == 'd' then
      assert s[n..n + k] == s[n..][..k];
      assert DaysAt(s, n, n + k);
      Text.DigitsValue(s[n..n + k])
    else DefaultDays
  }

  /** `s` starts with `\s+(\d+)d`, the whitespace being `s[..i]` and the
      digits `s[i..j]`. */
  predicate DaysAt(s: string, i: int, j: int) {
    1 <= i < j < |s| && Text.AllSpace(s[..i]) && Text.AllDigits(s[i..j]) && s[j] == 'd'
  }

  /** The whitespace and digit runs of a match are the maximal ones. */
  lemma DaysAtUnique(s: string)
    ensures forall i, j :: DaysAt(s, i, j) ==>
              var n := Text.LeadingSpaces(s);
              i == n && j == n + Text.LeadingDigits(s[n..])
  {
    forall i, j | DaysAt(s, i, j)
      ensures i == Text.LeadingSpaces(s) && j == i + Text.LeadingDigits(s[i..])
    {
      assert Text.IsDigit(s[i]);
      Text.LeadingSpacesAt(s, i);
      var t := s[i..];
      assert t[..j - i] == s[i..j];
      Text.LeadingDigitsAt(t, j - i);
    }
  }

  /** A space, a printed number and a `d` give back that number. */
  lemma DaysSuffix(d: nat, rest: string)
    ensures OptionalDays(" " + Text.NatToString(d) + "d" + rest) == d
  {
    var digits := Text.NatToString(d);
    var s := " " + digits + "d" + rest;
    Text.LeadingSpacesAt(s, 1);
    var t := s[1..];
    assert t == digits + "d" + rest;
    assert t[..|digits|] == digits;
    Text.LeadingDigitsAt(t, |digits|);
    assert s[1..1 + |digits|] == digits;
    Text.DigitsRoundTrip(d);
  }

  /** The whitespace run after `/usage_stats` and the text after it, when
      the command starts with `/usage_stats`. */
  function AfterKeyword(c: string): (r: Option<(nat, string)>)
    ensures r.Some? <==> Text.StartsWith(c, UsageStats)
  {
    if !Text.StartsWith(c, UsageStats) then None
    else
      var rest := c[|UsageStats|..];
      var n := Text.LeadingSpaces(rest);
      Some((n, rest[n..]))
  }

  /** `re.match(r"/usage_stats\s+all(?:\s+(\d+)d)?", c)`: its day count
      when it matches. With `wholeWord`, `all` must also be followed by
      whitespace or the end of the command. */
  function MatchAllUsers(c: string, wholeWord: bool): Option<nat> {
    match AfterKeyword(c)
    case None => None
    case Some((n, after)) =>
      if n == 0 || !Text.StartsWith(after, "all") then None
      else if wholeWord && !(|after| == 3 || Text.IsSpace(after[3])) then None
      else Some(OptionalDays(after[3..]))
  }

  /** A token `[^\s]+@[^\s]+` can cover: an `@` with at least one
      character on each side. */
  predicate HasInnerAt(t: string) {
    exists i :: 1 <= i < |t| - 1 && t[i] == '@'
  }

  /** `re.match(r"/usage_stats\s+([^\s]+@[^\s]+)(?:\s+(\d+)d)?", c)`: the
      captured address and day count when it matches. The address is the
      whole run of non-whitespace after the keyword: the first `[^\s]+`
      backs off only as far as the last usable `@`, and the second takes
      the rest of the run. */
  function MatchUserStats(c: string): Option<(string, nat)> {
    match AfterKeyword(c)
    case None => None
    case Some((n, after)) =>
      var k := Text.LeadingToken(after);
      if n == 0 || !HasInnerAt(after[..k]) then None
      else Some((after[..k], OptionalDays(after[k..])))
  }

  /** `re.match(r"/usage_stats(?:\s+(\d+)d)?", c)`: matches every command
      that starts with `/usage_stats`. */
  function MatchOwnStats(c: string): Option<nat> {
    if Text.StartsWith(c, UsageStats) then Some(OptionalDays(c[|UsageStats|..])) else None
  }

  datatype Command =
    | Help
    | Balance
    | AllUsers(days: nat)
    | UserStats(email: string, days: nat)
    | OwnStats(days: nat)
    | RunSql(query: string)
    | Ask(question: string)
    | Unknown

  /** Lines 100-146 without the authorisation: the first test that
      succeeds decides. */
  function ParseWith(c: string, wholeWord: bool): Command {
    if c == "/help" then Help
    else if c == "/balance" then Balance
    else match MatchAllUsers(c, wholeWord)
      case Some(d) => AllUsers(d)
      case None =>
        match MatchUserStats(c)
        case Some((e, d)) => UserStats(e, d)
        case None =>
          match MatchOwnStats(c)
          case Some(d) => OwnStats(d)
          case None =>
            if Text.StartsWith(c, RunSqlPrefix) then RunSql(c[|RunSqlPrefix|..])
            else if Text.StartsWith(c, AskPrefix) then Ask(c[|AskPrefix|..])
            else Unknown
  }

  /** The router as written. */
  function Parse(c: string): Command {
    ParseWith(c, false)
  }

  /** The router with `all` recognised only as a whole word. */
  function ParseFixed(c: string): Command {
    ParseWith(c, true)
  }

  /** The canonical text of a command, with the day count written out. */
  function Render(cmd: Command): string {
    match cmd
    case Help => "/help"
    case Balance => "/balance"
    case AllUsers(d) => UsageStats + " all " + Text.NatToString(d) + "d"
    case UserStats(e, d) => UsageStats + " " + e + " " + Text.NatToString(d) + "d"
    case OwnStats(d) => UsageStats + " " + Text.NatToString(d) + "d"
    case RunSql(q) => RunSqlPrefix + q
    case Ask(q) => AskPrefix + q
    case Unknown => ""
  }

  /** An address the per-user pattern can capture whole. */
  predicate IsAddress(e: string) {
    HasInnerAt(e) && forall k :: 0 <= k < |e| ==> !Text.IsSpace(e[k])
  }

  /** The commands whose canonical text reads back as themselves. */
  predicate Renderable(cmd: Command, wholeWord: bool) {
    cmd.UserStats? ==> IsAddress(cmd.email) && (wholeWord || !Text.StartsWith(cmd.email, "all"))
  }

  lemma NotHelpOrBalance(c: string)
    requires 2 <= |c| && c[1] != 'h' && c[1] != 'b'
    ensures c != "/help" && c != "/balance"
  {
  }

  lemma AfterKeywordOf(tail: string)
    requires tail != [] && !Text.IsSpace(tail[0])
    ensures AfterKeyword(UsageStats + " " + tail) == Some((1, tail))
  {
    var c := UsageStats + " " + tail;
    assert c[..|UsageStats|] == UsageStats;
    var rest := c[|UsageStats|..];
    assert rest == " " + tail;
    Text.LeadingSpacesAt(rest, 1);
    assert rest[1..] == tail;
  }

  lemma ParseRenderAllUsers(d: nat, wholeWord: bool)
    ensures ParseWith(Render(AllUsers(d)), wholeWord) == AllUsers(d)
  {
    var c := Render(AllUsers(d));
    assert c[1] == 'u';
    NotHelpOrBalance(c);
    AllUsersMatch(d, wholeWord);
  }

  lemma AllUsersMatch(d: nat, wholeWord: bool)
    ensures MatchAllUsers(Render(AllUsers(d)), wholeWord) == Some(d)
  {
    var digits := Text.NatToString(d);
    var tail := "all " + digits + "d";
    assert Render(AllUsers(d)) == UsageStats + " " + tail;
    AfterKeywordOf(tail);
    assert tail[..3] == "all" && tail[3] == ' ';
    assert tail[3..] == " " + digits + "d" + "";
    DaysSuffix(d, "");
  }

  lemma UserStatsNotAll(e: string, d: nat, wholeWord: bool)
    requires Renderable(UserStats(e, d), wholeWord)
    ensures MatchAllUsers(Render(UserStats(e, d)), wholeWord).None?
  {
    var tail := e + " " + Text.NatToString(d) + "d";
    assert Render(UserStats(e, d)) == UsageStats + " " + tail;
    assert tail[0] == e[0];
    AfterKeywordOf(tail);
    if Text.StartsWith(tail, "all") {
      assert tail[..3] == e[..3];
      assert tail[3] == e[3];
    }
  }

  lemma UserStatsMatch(e: string, d: nat)
    requires IsAddress(e)
    ensures MatchUserStats(Render(UserStats(e, d))) == Some((e, d))
  {
    var rest := " " + Text.NatToString(d) + "d";
    RenderedAfterKeyword(e, rest, d);
    AddressToken(e, rest);
    MatchUserStatsOf(Render(UserStats(e, d)), e + rest, |e|);
    DaysSuffix(d, "");
    assert rest + "" == rest;
  }

  lemma RenderedAfterKeyword(e: string, rest: string, d: nat)
    requires IsAddress(e) && rest == " " + Text.NatToString(d) + "d"
    ensures AfterKeyword(Render(UserStats(e, d))) == Some((1, e + rest))
  {
    var tail := e + rest;
    assert Render(UserStats(e, d)) == UsageStats + " " + tail;
    assert tail[0] == e[0];
    AfterKeywordOf(tail);
  }

  lemma MatchUserStatsOf(c: string, after: string, k: nat)
    requires AfterKeyword(c) == Some((1, after))
    requires k == Text.LeadingToken(after) && HasInnerAt(after[..k])
    ensures MatchUserStats(c) == Some((after[..k], OptionalDays(after[k..])))
  {
  }

  /** An address followed by whitespace is the leading token. */
  lemma AddressToken(e: string, rest: string)
    requires IsAddress(e) && rest != [] && Text.IsSpace(rest[0])
    ensures Text.LeadingToken(e + rest) == |e|
    ensures (e + rest)[..|e|] == e && (e + rest)[|e|..] == rest
  {
    var tail := e + rest;
    assert tail[..|e|] == e && tail[|e|..] == rest;
    assert forall k :: 0 <= k < |e| ==> tail[k] == e[k];
    assert tail[|e|] == rest[0];
    Text.LeadingTokenAt(tail, |e|);
  }

  lemma ParseRenderUserStats(e: string, d: nat, wholeWord: bool)
    requires Renderable(UserStats(e, d), wholeWord)
    ensures ParseWith(Render(UserStats(e, d)), wholeWord) == UserStats(e, d)
  {
    UserStatsNotAll(e, d, wholeWord);
    UserStatsMatch(e, d);
  }

  lemma ParseRenderOwnStats(d: nat, wholeWord: bool)
    ensures ParseWith(Render(OwnStats(d)), wholeWord) == OwnStats(d)
  {
    var digits := Text.NatToString(d);
    var tail := digits + "d";
    var c := Render(OwnStats(d));
    assert c == UsageStats + " " + tail;
    AfterKeywordOf(tail);
    assert !Text.StartsWith(tail, "all") by {
      assert Text.IsDigit(tail[0]);
    }
    var k := Text.LeadingToken(tail);
    assert !HasInnerAt(tail[..k]) by {
      forall i | 0 <= i < k ensures tail[..k][i] != '@' {
        if i < |digits| { assert Text.IsDigit(tail[i]); }
      }
    }
    assert c[|UsageStats|..] == " " + digits + "d" + "";
    DaysSuffix(d, "");
  }

  /** Every command written in its canonical form is recognised as itself,
      provided a per-user address does not start with `all` when `all` is
      not required to be a whole word. */
  lemma ParseRender(cmd: Command, wholeWord: bool)
    requires Renderable(cmd, wholeWord)
    ensures ParseWith(Render(cmd), wholeWord) == cmd
  {
    match cmd
    case Help =>
    case Balance =>
    case AllUsers(d) => ParseRenderAllUsers(d, wholeWord);
    case UserStats(e, d) => ParseRenderUserStats(e, d, wholeWord);
    case OwnStats(d) => ParseRenderOwnStats(d, wholeWord);
    case RunSql(q) =>
      var c := Render(cmd);
      assert c[..|RunSqlPrefix|] == RunSqlPrefix && c[|RunSqlPrefix|..] == q;
      NotHelpOrBalance(c);
      assert !Text.StartsWith(c, UsageStats) by { assert c[1] != UsageStats[1]; }
    case Ask(q) =>
      var c := Render(cmd);
      assert c[..|AskPrefix|] == AskPrefix && c[|AskPrefix|..] == q;
      NotHelpOrBalance(c);
      assert !Text.StartsWith(c, UsageStats) by { assert c[1] != UsageStats[1]; }
    case Unknown =>
  }

  lemma ParseKeywordOnly(wholeWord: bool)
    ensures ParseWith(UsageStats, wholeWord) == OwnStats(DefaultDays)
  {
    assert UsageStats[..|UsageStats|] == UsageStats;
    assert UsageStats[1] == 'u';
    assert UsageStats[|UsageStats|..] == [];
    Text.LeadingSpacesAt([], 0);
  }

  lemma ParseAllOnly(wholeWord: bool)
    ensures ParseWith(UsageStats + " all", wholeWord) == AllUsers(DefaultDays)
  {
    AfterKeywordOf("all");
    assert "all"[..3] == "all" && "all"[3..] == [];
    assert (UsageStats + " all")[1] == 'u';
  }

  lemma ParseAddressOnly(e: string, wholeWord: bool)
    requires IsAddress(e) && (wholeWord || !Text.StartsWith(e, "all"))
    ensures ParseWith(UsageStats + " " + e, wholeWord) == UserStats(e, DefaultDays)
  {
    var c := UsageStats + " " + e;
    assert c[1] == 'u';
    AfterKeywordOf(e);
    assert MatchAllUsers(c, wholeWord).None? by {
      if Text.StartsWith(e, "all") {
        assert !Text.IsSpace(e[3]);
      }
    }
    Text.LeadingTokenAt(e, |e|);
    assert e[..|e|] == e && e[|e|..] == [];
  }

  /** Lines 113, 122, 130: without a day suffix each statistics command
      covers 30 days. */
  lemma DaysDefaultTo30(e: string)
    requires IsAddress(e) && !Text.StartsWith(e, "all")
    ensures Parse(UsageStats) == OwnStats(30)
    ensures Parse(UsageStats + " all") == AllUsers(30)
    ensures Parse(UsageStats + " " + e) == UserStats(e, 30)
  {
    ParseKeywordOnly(false);
    ParseAllOnly(false);
    ParseAddressOnly(e, false);
  }

  // ---------------------------------------------------------------------
  // Authorisation and the replies (lines 100-146)

  /** What the bot does for a message. */
  datatype Action =
    | Say(text: string)                   // a literal reply
    | CheckBalance                        // get_balance()
    | ReportAllUsers(days: nat)           // generate_all_users_report(days)
    | ReportUser(days: nat, email: string) // generate_single_user_report(days, email)
    | RunQuery(query: string)             // run_sql_command(query)
    | AskAssistant(question: string)      // handle_ask_command(..., question)

  const Denied: string := "Sorry, this feature is only available to Admins"
  const InvalidPrefix: string := "Invalid command\n\n"

  /** True of the actions only a superuser may cause. */
  predicate Privileged(a: Action) {
    a.CheckBalance? || a.ReportAllUsers? || a.RunQuery? || a.AskAssistant?
  }

  /** Lines 100-146 once the command is recognised: the balance, all-users
      statistics, SQL and assistant commands need a superuser; statistics
      for one address need a superuser or that address's owner; a caller's
      own statistics and the help are open to everyone. */
  function Authorize(cmd: Command, u: User, superusers: string): (a: Action)
    ensures Privileged(a) ==> IsSuperuser(u, superusers)
    ensures a.ReportUser? ==> IsSuperuser(u, superusers) || a.email == u.email
    ensures a == Say(Denied) <==>
              !IsSuperuser(u, superusers) &&
              (cmd.Balance? || cmd.AllUsers? || cmd.RunSql? || cmd.Ask? || (cmd.UserStats? && cmd.email != u.email))
    ensures cmd.OwnStats? ==> a == ReportUser(cmd.days, u.email)
    // what each permitted command gets
    ensures cmd.UserStats? && (IsSuperuser(u, superusers) || cmd.email == u.email) ==> a == ReportUser(cmd.days, cmd.email)
    ensures IsSuperuser(u, superusers) && cmd.Balance? ==> a == CheckBalance
    ensures IsSuperuser(u, superusers) && cmd.AllUsers? ==> a == ReportAllUsers(cmd.days)
    ensures IsSuperuser(u, superusers) && cmd.RunSql? ==> a == RunQuery(cmd.query)
    ensures IsSuperuser(u, superusers) && cmd.Ask? ==> a == AskAssistant(cmd.question)
    ensures cmd.Help? ==> a == Say(HelpText(IsSuperuser(u, superusers)))
    ensures cmd.Unknown? ==> a == Say(InvalidPrefix + HelpText(IsSuperuser(u, superusers)))
  {
    var su := IsSuperuser(u, superusers);
    HelpIsNotDenial(su);
    match cmd
    case Help => Say(HelpText(su))
    case Balance => if su then CheckBalance else Say(Denied)
    case AllUsers(d) => if su then ReportAllUsers(d) else Say(Denied)
    case UserStats(e, d) => if su || e == u.email then ReportUser(d, e) else Say(Denied)
    case OwnStats(d) => ReportUser(d, u.email)
    case RunSql(q) => if su then RunQuery(q) else Say(Denied)
    case Ask(q) => if su then AskAssistant(q) else Say(Denied)
    case Unknown => Say(InvalidPrefix + HelpText(su))
  }

  /** `pipe` and `handle_command` as written. */
  function Dispatch(c: string, u: User, superusers: string): Action {
    Authorize(Parse(c), u, superusers)
  }

  /** The same with `all` recognised only as a whole word. */
  function DispatchFixed(c: string, u: User, superusers: string): Action {
    Authorize(ParseFixed(c), u, superusers)
  }

  /** A command written in its canonical form is routed and authorised as
      that command, by both routers. */
  lemma DispatchOfRendered(cmd: Command, u: User, superusers: string)
    requires Renderable(cmd, false)
    ensures Dispatch(Render(cmd), u, superusers) == Authorize(cmd, u, superusers)
    ensures DispatchFixed(Render(cmd), u, superusers) == Authorize(cmd, u, superusers)
  {
    ParseRender(cmd, false);
    ParseRender(cmd, true);
  }

  // ---------------------------------------------------------------------
  // Help (lines 148-164)

  const BasicHelp: string :=
    "**Available Commands**\n"
    + "* **/usage_stats 30d** my own usage stats for 30 days\n\n"

  const AdminHelp: string :=
    "**Available Commands (Admins Only)**\n"
    + "* **/balance** Check current API balance\n"
    + "* **/usage_stats all 45d** stats by all users for 45 days\n"
    + "* **/usage_stats user@email.com** stats for the indicated user (default is 30 days)\n"
    + "* **/run_sql SELECT count(*) from usage_costs;** allows an admin to run arbitrary SQL SELECT from the database.\n"
    + "  - For SQLite: use /run_sql PRAGMA table_info(usage_costs) to see available table columns\n"
    + "  - For Postgres db: /run_sql SELECT * FROM information_schema.columns WHERE table_name = 'usage_costs'\n"
    + "* **/ask** Ask questions about usage in natural language. SQL will be generated automatically.\n"

  /** Lines 148-164: the basic section always comes first; the admin
      section follows it exactly for a superuser. */
  function HelpText(superuser: bool): (h: string)
    ensures Text.StartsWith(h, BasicHelp)
    ensures superuser ==> h[|BasicHelp|..] == AdminHelp
    ensures !superuser <==> h == BasicHelp
  {
    var h := BasicHelp + (if superuser then AdminHelp else "");
    assert h[..|BasicHelp|] == BasicHelp;
    h
  }

  lemma HelpIsNotDenial(superuser: bool)
    ensures HelpText(superuser) != Denied
    ensures InvalidPrefix + HelpText(superuser) != Denied
  {
    assert |BasicHelp| > |Denied|;
    assert |HelpText(superuser)| >= |BasicHelp|;
  }

  /** The examples the help text gives are read as it describes them. */
  lemma HelpExampleOwn()
    ensures Parse("/usage_stats 30d") == OwnStats(30)
  {
    var c := Render(OwnStats(30));
    PrintThirty();
    assert c == "/usage_stats 30d";
    ParseRenderOwnStats(30, false);
  }

  lemma PrintThirty()
    ensures Text.NatToString(30) == "30"
  {
    assert Text.NatToString(3) == "3";
  }

  lemma HelpExampleAll()
    ensures Parse("/usage_stats all 45d") == AllUsers(45)
  {
    var c := Render(AllUsers(45));
    PrintFortyFive();
    assert c == "/usage_stats all 45d";
    ParseRenderAllUsers(45, false);
  }

  lemma PrintFortyFive()
    ensures Text.NatToString(45) == "45"
  {
    assert Text.NatToString(4) == "4";
  }

  // ---------------------------------------------------------------------
  // Finding: an address that starts with "all"

  /** As written, the all-users pattern also matches an address that
      begins with `all`, so a non-superuser asking for their own
      statistics by address is refused. */
  lemma OwnerStartingWithAllIsRefused()
    ensures var e := "allan@example.com";
            Dispatch(UsageStats + " " + e, User("user", e), "") == Say(Denied)
  {
    var e := "allan@example.com";
    var c := UsageStats + " " + e;
    assert c[1] == 'u';
    AfterKeywordOf(e);
    assert e[..3] == "all";
    assert !IsSuperuser(User("user", e), "") by {
      DefaultSuperusers(User("user", e));
    }
  }

  /** With `all` a whole word, the owner of any address is served their
      statistics, for any day count. */
  lemma FixedServesOwner(e: string, d: nat, u: User, superusers: string)
    requires IsAddress(e) && u.email == e
    ensures DispatchFixed(Render(UserStats(e, d)), u, superusers) == ReportUser(d, e)
    ensures DispatchFixed(UsageStats + " " + e, u, superusers) == ReportUser(DefaultDays, e)
  {
    ParseRenderUserStats(e, d, true);
    ParseAddressOnly(e, true);
  }

  /** The whole-word reading still recognises the canonical all-users
      command, with and without a day count. */
  lemma FixedKeepsAllUsers(d: nat)
    ensures ParseFixed(Render(AllUsers(d))) == AllUsers(d)
    ensures ParseFixed(UsageStats + " all") == AllUsers(DefaultDays)
  {
    ParseRenderAllUsers(d, true);
    ParseAllOnly(true);
  }

  /** After the keyword and its whitespace, `all` glued to more text, as
      in `/usage_stats allan@example.com` or `/usage_stats all7d`. */
  predicate GluedAll(c: string) {
    match AfterKeyword(c)
    case None => false
    case Some((n, after)) => n > 0 && |after| > 3 && after[..3] == "all" && !Text.IsSpace(after[3])
  }

  /** The correction changes the routing of exactly the commands with a
      glued `all`: the router as written takes them for the all-users
      report, the corrected one never does. */
  lemma FixedChangesOnlyGluedAll(c: string)
    ensures Parse(c) != ParseFixed(c) <==> GluedAll(c)
    ensures GluedAll(c) ==> Parse(c).AllUsers? && !ParseFixed(c).AllUsers?
  {
    if Text.StartsWith(c, UsageStats) {
      assert c[1] == UsageStats[1] == 'u';
      assert c != "/help" && c != "/balance";
    }
  }

  /** `/usage_stats all7d`: the code as written gives the all-users report
      for the default 30 days; the corrected router gives the caller's own
      30-day report. */
  lemma GluedDayCount()
    ensures Parse(UsageStats + " all7d") == AllUsers(DefaultDays)
    ensures ParseFixed(UsageStats + " all7d") == OwnStats(DefaultDays)
  {
    var c := UsageStats + " all7d";
    assert c[1] == 'u';
    GluedDayCountPieces();
  }

  /** How the three patterns read `/usage_stats all7d`. */
  lemma GluedDayCountPieces()
    ensures AfterKeyword(UsageStats + " all7d") == Some((1, "all7d"))
    ensures "all7d"[..3] == "all" && !Text.IsSpace("all7d"[3]) && OptionalDays("all7d"[3..]) == DefaultDays
    ensures Text.LeadingToken("all7d") == 5 && !HasInnerAt("all7d"[..5])
    ensures OptionalDays((UsageStats + " all7d")[|UsageStats|..]) == DefaultDays
  {
    var c := UsageStats + " all7d";
    AfterKeywordOf("all7d");
    assert "all7d"[3..] == "7d";
    assert Text.LeadingSpaces("7d") == 0;
    assert c[|UsageStats|..] == " all7d";
    assert Text.LeadingSpaces(" all7d") == 1 by {
      assert " all7d"[1..] == "all7d";
    }
    assert Text.LeadingDigits(" all7d"[1..]) == 0 by {
      assert " all7d"[1..] == "all7d";
    }
    Text.LeadingTokenAt("all7d", 5);
    assert "all7d"[..5] == "all7d";
    NoAddressInAll7d();
  }

  /** `all7d` holds no `@`, so it is not an address. */
  lemma NoAddressInAll7d()
    ensures !HasInnerAt("all7d")
  {
    var t := "all7d";
    assert t[1] == 'l' && t[2] == 'l' && t[3] == '7';
  }

}
