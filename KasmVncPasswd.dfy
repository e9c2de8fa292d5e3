/** The kasmvncpasswd command: `kasmvncpasswd -u user [-rwnod] [file]`
    adds or updates a user of a password file, changes only its
    permissions (-n) or deletes it (-d). The command line is the sequence
    of options getopt returns; standard input is a sequence of lines; the
    terminal test and crypt(3) are parameters; the password file is its
    text, `None` when it does not exist. */
module KasmVncPasswd {
  import opened Wrappers
  import opened KasmPasswd
  import opened WuString

  /** What getopt returns for "u:rwnod": -u with its argument, one of the
      flags, or '?' for anything else. */
  datatype Opt = UserOpt(name: string) | NoPass | Reader | Writer | Owner | Delete | Unknown

  datatype Flags = Flags(user: Option<string>, nopass: bool, reader: bool, writer: bool, owner: bool, deleting: bool)

  const NoFlags := Flags(None, false, false, false, false, false)

  /** The flags after one option; None when the option makes the command
      exit (an unknown option, or a user name too long for its field). */
  function OptStep(f: Flags, o: Opt): Option<Flags>
  {
    match o
    case UserOpt(name) => if |name| + 1 > FieldSize then None else Some(f.(user := Some(name)))
    case NoPass => Some(f.(nopass := true))
    case Reader => Some(f.(reader := true))
    case Writer => Some(f.(writer := true))
    case Owner => Some(f.(owner := true))
    case Delete => Some(f.(deleting := true))
    case Unknown => None
  }

  /** The flags after the options, processed in order; None at the first
      option that exits. */
  function Options(f: Flags, opts: seq<Opt>): Option<Flags>
    decreases |opts|
  {
    if opts == [] then Some(f)
    else match OptStep(f, opts[0])
      case None => None
      case Some(g) => Options(g, opts[1..])
  }

  /** An option that does not make the command exit. */
  predicate Accepted(o: Opt)
  {
    o != Unknown && (o.UserOpt? ==> |o.name| + 1 <= FieldSize)
  }

  /** The getopt loop of main: it gets through the options exactly when
      none is unknown and no user name is too long. */
  method ParseOptions(opts: seq<Opt>) returns (r: Option<Flags>)
    ensures r == Options(NoFlags, opts)
    ensures r.Some? <==> forall k :: 0 <= k < |opts| ==> Accepted(opts[k])
  {
    var f := NoFlags;
    var i := 0;
    while i < |opts|
      invariant 0 <= i <= |opts|
      invariant Options(NoFlags, opts) == Options(f, opts[i..])
      invariant forall k :: 0 <= k < i ==> Accepted(opts[k])
    {
      assert opts[i..][1..] == opts[i + 1..];
      var g := OptStep(f, opts[i]);
      if g.None? {
        return None;
      }
      f := g.value;
      i := i + 1;
    }
    return Some(f);
  }

  /** The user of the options: the last -u wins, over the user given. */
  lemma {:induction false} OptionsUser(f: Flags, opts: seq<Opt>)
    requires Options(f, opts).Some?
    ensures var u := Options(f, opts).value.user;
      (u.Some? && u != f.user ==> exists k :: 0 <= k < |opts| && opts[k] == UserOpt(u.value)) &&
      ((forall k :: 0 <= k < |opts| ==> !opts[k].UserOpt?) ==> u == f.user) &&
      (u.Some? ==> |u.value| < FieldSize || u == f.user)
    decreases |opts|
  {
    if opts != [] {
      var g := OptStep(f, opts[0]).value;
      OptionsUser(g, opts[1..]);
      var u := Options(f, opts).value.user;
      if u.Some? && u != f.user && u == g.user {
        assert opts[0] == UserOpt(u.value);
      } else if u.Some? && u != g.user {
        var k :| 0 <= k < |opts[1..]| && opts[1..][k] == UserOpt(u.value);
        assert opts[k + 1] == UserOpt(u.value);
      }
      if forall k :: 0 <= k < |opts| ==> !opts[k].UserOpt? {
        assert !opts[0].UserOpt?;
        assert forall k :: 0 <= k < |opts[1..]| ==> !opts[1..][k].UserOpt?;
      }
    }
  }

  /** The checks after the option loop: -d cannot be combined with
      -n, -r, -w or -o, and -u is required. */
  predicate Usable(f: Flags)
  {
    !(f.deleting && (f.nopass || f.reader || f.writer || f.owner)) && f.user.Some?
  }

  // ---- readpassword ----

  /** The password the prompt loop accepts from the input lines, or None
      when the command exits: at end of input, on an empty password, or on
      a mismatch when standard input is not a terminal. A password shorter
      than six characters, or a mismatch on a terminal, asks again. */
  function Prompt(input: seq<string>, tty: bool): (r: Option<string>)
    ensures r.Some? ==> |r.value| >= 6
    decreases |input|
  {
    if input == [] then None
    else if |input[0]| < 6 then
      if |input[0]| == 0 then None else Prompt(input[1..], tty)
    else if |input| < 2 then None
    else if input[0] != input[1] then
      if !tty then None else Prompt(input[2..], tty)
    else Some(input[0])
  }

  /** readpassword, before the password is handed to crypt. */
  method ReadPassword(input: seq<string>, tty: bool) returns (pw: Option<string>)
    ensures pw == Prompt(input, tty)
    ensures pw.Some? ==> |pw.value| >= 6
    ensures input != [] && input[0] == [] ==> pw.None?
  {
    var i := 0;
    while true
      invariant 0 <= i <= |input|
      invariant Prompt(input[i..], tty) == Prompt(input, tty)
      decreases |input| - i
    {
      if i == |input| {
        return None;
      }
      var pw1 := input[i];
      if |pw1| < 6 {
        if |pw1| == 0 {
          return None;
        }
        assert input[i..][1..] == input[i + 1..];
        i := i + 1;
        continue;
      }
      if i + 1 == |input| {
        return None;
      }
      var pw2 := input[i + 1];
      if pw1 != pw2 {
        if !tty {
          return None;
        }
        assert input[i..][2..] == input[i + 2..];
        i := i + 2;
        continue;
      }
      return Some(pw1);
    }
  }

  /** Lines k and k + 1 of the input are both pw. */
  predicate TypedTwiceAt(input: seq<string>, k: nat, pw: string)
  {
    k + 1 < |input| && input[k] == pw && input[k + 1] == pw
  }

  /** An accepted password was typed twice in a row. */
  lemma {:induction false} PromptTypedTwice(input: seq<string>, tty: bool)
    requires Prompt(input, tty).Some?
    ensures exists k: nat :: TypedTwiceAt(input, k, Prompt(input, tty).value)
    decreases |input|
  {
    var pw := Prompt(input, tty).value;
    if |input[0]| < 6 {
      var t := input[1..];
      PromptTypedTwice(t, tty);
      var k: nat :| TypedTwiceAt(t, k, pw);
      assert TypedTwiceAt(input, k + 1, pw);
    } else if input[0] != input[1] {
      var t := input[2..];
      PromptTypedTwice(t, tty);
      var k: nat :| TypedTwiceAt(t, k, pw);
      assert TypedTwiceAt(input, k + 2, pw);
    } else {
      assert TypedTwiceAt(input, 0, pw);
    }
  }

  // ---- the three edits ----

  /** -n: the permissions of entry i become the command's flags. */
  function SetPerms(entries: seq<Entry>, i: nat, f: Flags): seq<Entry>
    requires i < |entries|
  {
    entries[i := entries[i].(read := f.reader, write := f.writer, owner := f.owner)]
  }

  /** What main leaves behind: its exit status and the (path, text) of the
      password file it wrote, if it wrote one. */
  datatype Outcome = Outcome(status: int, write: Option<(string, string)>)

  /** main. `path` is the optional file argument, `home` the expansion of
      ~/.kasmpasswd (None when wordexp fails), `file` the contents of the
      chosen file. */
  method RunCommand(opts: seq<Opt>, path: Option<string>, home: Option<string>, file: Option<string>,
                    input: seq<string>, tty: bool, crypt: string -> string)
    returns (out: Outcome)
    ensures Options(NoFlags, opts).None? ==> out == Outcome(1, None)
    ensures Options(NoFlags, opts).Some? && !Usable(Options(NoFlags, opts).value) ==> out == Outcome(1, None)
    ensures path.None? && home.None? ==> out == Outcome(1, None)
    ensures out.write.Some? ==>
      out.status == 0 && out.write.value.0 == (if path.Some? then path.value else home.value)
    ensures Options(NoFlags, opts).Some? && Usable(Options(NoFlags, opts).value) && (path.Some? || home.Some?) ==>
      var f := Options(NoFlags, opts).value;
      var name := f.user.value;
      var entries := Parse(file);
      var i := FirstIndex(Users(entries), name);
      var target := if path.Some? then path.value else home.value;
      if f.nopass then
        out == if i == -1 then Outcome(1, None) else Outcome(0, Some((target, Render(SetPerms(entries, i, f)))))
      else if f.deleting then
        out == if i == -1 then Outcome(1, None) else Outcome(0, Some((target, Render(Blank(entries, i)))))
      else
        var pw := Prompt(input, tty);
        out == if pw.None? then Outcome(1, None)
               else Outcome(0, Some((target, Render(Upsert(entries, i, Entry(name, crypt(pw.value), f.reader, f.writer, f.owner))))))
  {
    var flags := ParseOptions(opts);
    if flags.None? {
      return Outcome(1, None);
    }
    var f := flags.value;
    if f.deleting && (f.nopass || f.reader || f.writer || f.owner) {
      return Outcome(1, None);
    }
    if f.user.None? {
      return Outcome(1, None);
    }
    var name := f.user.value;
    var fname := if path.Some? then path else home;
    if fname.None? {
      return Outcome(1, None);
    }
    var entries := ReadKasmPasswd(file);
    if f.nopass {
      var i := FindUser(entries, name);
      if i == -1 {
        return Outcome(1, None);
      }
      var w := WriteKasmPasswd(SetPerms(entries, i, f));
      return Outcome(0, Some((fname.value, w.value)));
    } else if f.deleting {
      var i := FindUser(entries, name);
      if i == -1 {
        return Outcome(1, None);
      }
      var w := WriteKasmPasswd(Blank(entries, i));
      return Outcome(0, Some((fname.value, w.value)));
    } else {
      var pw := ReadPassword(input, tty);
      if pw.None? {
        return Outcome(1, None);
      }
      var encrypted := crypt(pw.value);
      var i := FindUser(entries, name);
      var w := WriteKasmPasswd(Upsert(entries, i, Entry(name, encrypted, f.reader, f.writer, f.owner)));
      return Outcome(0, Some((fname.value, w.value)));
    }
  }

  // ---- what the edits do to the file ----

  /** -n touches only the first entry with the user's name, and only its
      permissions. */
  lemma SetPermsFirstOnly(entries: seq<Entry>, name: string, f: Flags)
    requires FirstIndex(Users(entries), name) >= 0
    ensures var i := FirstIndex(Users(entries), name);
      var r := SetPerms(entries, i, f);
      |r| == |entries| &&
      (forall k :: 0 <= k < |r| && k != i ==> r[k] == entries[k]) &&
      r[i].user == name && r[i].password == entries[i].password &&
      r[i].read == f.reader && r[i].write == f.writer && r[i].owner == f.owner
  {
  }
}
