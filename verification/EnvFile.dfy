/** The token line of the env file: the rewrite of `internal/relay/client.go` and the reader of `main.go`. */
module EnvFile {
  import opened Wrappers
  import opened Text
  import Auth

  const TOKEN_KEY := "CONTINUUM_TOKEN="

  predicate IsTokenLine(line: string) {
    TOKEN_KEY <= line
  }

  /** The first token line, or the number of lines. */
  function FirstToken(lines: seq<string>): (r: nat)
    ensures r <= |lines|
    ensures forall i :: 0 <= i < r ==> !IsTokenLine(lines[i])
    ensures r < |lines| ==> IsTokenLine(lines[r])
  {
    if lines == [] || IsTokenLine(lines[0]) then 0 else 1 + FirstToken(lines[1..])
  }

  /** The lines after setting the token: in place, or before a final empty line, or at the end. */
  function SetToken(lines: seq<string>, token: string): seq<string>
    requires lines != []
  {
    var n, at := |lines| - 1, FirstToken(lines);
    if at <= n then lines[at := TOKEN_KEY + token]
    else if lines[n] == "" then lines[..n] + [TOKEN_KEY + token, ""]
    else lines + [TOKEN_KEY + token]
  }

  function Rewrite(content: string, token: string): string {
    Join(SetToken(Split(content, '\n'), token), '\n')
  }

  method RewriteEnvFile(content: string, newToken: string) returns (r: string)
    ensures r == Rewrite(content, newToken)
  {
    hide IsTokenLine;
    var lines := Split(content, '\n');
    ghost var original := lines;
    var found := false;
    for i := 0 to |lines|
      invariant lines == original && !found && i <= FirstToken(original)
    {
      if IsTokenLine(lines[i]) {
        lines := lines[i := TOKEN_KEY + newToken];
        found := true;
        break;
      }
    }
    if !found {
      if |lines| > 0 && lines[|lines| - 1] == "" {
        lines := lines[..|lines| - 1] + [TOKEN_KEY + newToken, ""];
      } else {
        lines := lines + [TOKEN_KEY + newToken];
      }
    }
    r := Join(lines, '\n');
  }

  // ---- the reader ----

  /** The token of a file: what follows the key on the first token line. */
  function FileToken(content: string): string {
    var lines := Split(content, '\n');
    var at := FirstToken(lines);
    if at < |lines| then lines[at][|TOKEN_KEY|..] else ""
  }

  /** The environment first, then the file; an empty token is no token. */
  function ResolveToken(environment: string, file: Option<string>): Option<string> {
    var token := if environment != "" then environment else if file.Some? then FileToken(file.value) else "";
    if token == "" then None else Some(token)
  }

  /** This is the first line that starts with `CONTINUUM_TOKEN=`. */
  predicate FirstAt(lines: seq<string>, i: nat) {
    i < |lines| && "CONTINUUM_TOKEN=" <= lines[i] && forall k :: 0 <= k < i ==> !("CONTINUUM_TOKEN=" <= lines[k])
  }

  predicate HasNone(lines: seq<string>) {
    forall k :: 0 <= k < |lines| ==> !("CONTINUUM_TOKEN=" <= lines[k])
  }

  lemma FirstTokenMeaning(lines: seq<string>, i: nat)
    ensures FirstAt(lines, i) ==> FirstToken(lines) == i
    ensures HasNone(lines) ==> FirstToken(lines) == |lines|
  {
    if FirstAt(lines, i) {
      FirstTokenIs(lines, i);
    }
  }

  /** What follows the key on the first line that starts with it, or nothing. */
  lemma FileTokenMeaning(content: string, i: nat)
    ensures var lines := Split(content, '\n');
            (FirstAt(lines, i) ==> FileToken(content) == lines[i][16..]) &&
            (HasNone(lines) ==> FileToken(content) == "")
  {
    hide Split;
    FirstTokenMeaning(Split(content, '\n'), i);
  }

  /** The environment wins whenever it is set; an empty token in either place is none. */
  method LoadToken(environment: string, file: Option<string>) returns (r: Option<string>)
    ensures r == ResolveToken(environment, file)
    ensures environment != "" ==> r == Some(environment)
    ensures environment == "" && file.None? ==> r == None
    ensures environment == "" && file.Some? ==>
              r == if FileToken(file.value) == "" then None else Some(FileToken(file.value))
  {
    hide IsTokenLine;
    var token := environment;
    if token == "" && file.Some? {
      var lines := Split(file.value, '\n');
      for i := 0 to |lines|
        invariant token == "" && i <= FirstToken(lines)
      {
        if IsTokenLine(lines[i]) {
          TokenLineLength(lines[i]);
          token := lines[i][|TOKEN_KEY|..];
          break;
        }
      }
    }
    if token == "" {
      return None;
    }
    return Some(token);
  }

  lemma TokenLineLength(line: string)
    requires IsTokenLine(line)
    ensures |line| >= |TOKEN_KEY| && TrimPrefix(line, TOKEN_KEY) == line[|TOKEN_KEY|..]
  {
  }

  // ---- rewrite and reader are inverse ----

  predicate CleanToken(token: string) {
    '\n' !in token
  }

  lemma NewLine(token: string)
    requires CleanToken(token)
    ensures IsTokenLine(TOKEN_KEY + token) && '\n' !in TOKEN_KEY + token
    ensures (TOKEN_KEY + token)[|TOKEN_KEY|..] == token && !IsTokenLine("")
  {
  }

  lemma FirstTokenIs(lines: seq<string>, at: nat)
    requires at < |lines| && IsTokenLine(lines[at]) && forall i :: 0 <= i < at ==> !IsTokenLine(lines[i])
    ensures FirstToken(lines) == at
  {
  }

  /** Where the token line stands afterwards, and that it is the first one. */
  lemma SetTokenPlace(lines: seq<string>, token: string)
    requires lines != [] && CleanToken(token)
    ensures var n, at, r := |lines| - 1, FirstToken(lines), SetToken(lines, token);
            FirstToken(r) == (if at <= n then at else if lines[n] == "" then n else n + 1) &&
            FirstToken(r) < |r| && r[FirstToken(r)] == TOKEN_KEY + token
  {
    hide IsTokenLine, CleanToken;
    NewLine(token);
    var n, at, r := |lines| - 1, FirstToken(lines), SetToken(lines, token);
    FirstTokenIs(r, if at <= n then at else if lines[n] == "" then n else n + 1);
  }

  lemma SplitRewrite(content: string, token: string)
    requires CleanToken(token)
    ensures Split(Rewrite(content, token), '\n') == SetToken(Split(content, '\n'), token)
  {
    hide IsTokenLine, CleanToken, Split;
    var lines := Split(content, '\n');
    SplitPieces(content, '\n');
    NewLine(token);
    SplitJoin(SetToken(lines, token), '\n');
  }

  /** The reader finds the token that was written, in any file. */
  lemma ReadBack(content: string, token: string)
    requires CleanToken(token) && token != ""
    ensures FileToken(Rewrite(content, token)) == token
    ensures ResolveToken("", Some(Rewrite(content, token))) == Some(token)
  {
    hide IsTokenLine, CleanToken, Split, SetToken;
    SplitRewrite(content, token);
    SetTokenPlace(Split(content, '\n'), token);
    NewLine(token);
  }

  lemma LastPiece(content: string)
    ensures var lines := Split(content, '\n');
            lines[|lines| - 1] == "" <==> content == "" || content[|content| - 1] == '\n'
  {
    hide Split, Unlines;
    var lines := Split(content, '\n');
    var front, last := lines[..|lines| - 1], lines[|lines| - 1];
    UnlinesSplit(content);
    SplitPieces(content, '\n');
    assert lines == front + [last];
    UnlinesConcat(front, [last]);
    UnlinesOne(last);
    assert content + "\n" == Unlines(front) + last + "\n";
    CancelTail(content, Unlines(front) + last, "\n");
    if last == "" && front != [] {
      UnlinesJoin(front);
      assert content[|content| - 1] == '\n';
    } else if front == [] {
      UnlinesNil();
    }
  }

  lemma UnlinesNil()
    ensures Unlines([]) == ""
  {
  }

  /**
   * Where the token goes: onto the first token line if there is one, and otherwise onto a new line at the end, with a
   * newline behind it exactly if the file ended in one or was empty.
   */
  lemma RewritePlaces(content: string, token: string, i: nat)
    requires '\n' !in token
    ensures var lines := Split(content, '\n');
            (FirstAt(lines, i) ==>
               Split(Rewrite(content, token), '\n') == lines[i := "CONTINUUM_TOKEN=" + token]) &&
            (HasNone(lines) ==>
               Rewrite(content, token) ==
               if content == "" || content[|content| - 1] == '\n' then content + ("CONTINUUM_TOKEN=" + token) + "\n"
               else content + "\n" + ("CONTINUUM_TOKEN=" + token))
  {
    hide Split, Join, Unlines;
    var lines := Split(content, '\n');
    SplitRewrite(content, token);
    FirstTokenMeaning(lines, i);
    NewLastLine(content, "CONTINUUM_TOKEN=" + token);
    LastPiece(content);
  }

  lemma NewLastLine(content: string, line: string)
    ensures var lines := Split(content, '\n');
            var n := |lines| - 1;
            (lines[n] == "" ==> Join(lines[..n] + [line, ""], '\n') == content + line + "\n") &&
            Join(lines + [line], '\n') == content + "\n" + line
  {
    hide Split, Join, Unlines;
    var lines := Split(content, '\n');
    var front, last := lines[..|lines| - 1], lines[|lines| - 1];
    UnlinesSplit(content);
    UnlinesConcat(lines, [line]);
    UnlinesOne(line);
    UnlinesJoin(lines + [line]);
    assert content + "\n" + (line + "\n") == content + "\n" + line + "\n";
    CancelTail(Join(lines + [line], '\n'), content + "\n" + line, "\n");
    if last == "" {
      assert lines == front + [""];
      UnlinesConcat(front, [""]);
      UnlinesOne("");
      CancelTail(Unlines(front), content, "\n");
      UnlinesConcat(front, [line, ""]);
      UnlinesConcat([line], [""]);
      assert [line] + [""] == [line, ""];
      UnlinesJoin(front + [line, ""]);
      assert content + (line + "\n" + ("" + "\n")) == content + line + "\n" + "\n";
      CancelTail(Join(front + [line, ""], '\n'), content + line + "\n", "\n");
    }
  }

  function Without(lines: seq<string>, at: nat): seq<string> {
    if at < |lines| then lines[..at] + lines[at + 1..] else lines
  }

  /** All lines but the token line keep their content and order. */
  lemma OtherLinesKept(content: string, token: string)
    requires CleanToken(token)
    ensures var before, after := Split(content, '\n'), Split(Rewrite(content, token), '\n');
            Without(after, FirstToken(after)) == Without(before, FirstToken(before))
  {
    hide IsTokenLine, CleanToken, Split;
    SplitRewrite(content, token);
    SetTokenPlace(Split(content, '\n'), token);
  }

  /** Rewriting twice is rewriting once with the later token. */
  lemma LastRewriteWins(content: string, t1: string, t2: string)
    requires CleanToken(t1) && CleanToken(t2)
    ensures Rewrite(Rewrite(content, t1), t2) == Rewrite(content, t2)
  {
    hide IsTokenLine, CleanToken, Split;
    var lines := Split(content, '\n');
    SplitRewrite(content, t1);
    SetTokenPlace(lines, t1);
    assert SetToken(SetToken(lines, t1), t2) == SetToken(lines, t2);
  }

  // ---- rotation ----

  /** `^[a-f0-9]{64}$` */
  predicate LegalToken(token: string) {
    |token| == 64 && forall i :: 0 <= i < 64 ==> 'a' <= token[i] <= 'f' || '0' <= token[i] <= '9'
  }

  datatype Reply = Rotated | InvalidToken | RotateFailed

  /** The env file and the token the authenticator accepts. */
  datatype Tokens = Tokens(env: string, accepted: string)

  function RotateStep(s: Tokens, newToken: string, ioFails: bool): (Tokens, Reply) {
    if !LegalToken(newToken) then (s, InvalidToken)
    else if ioFails then (s, RotateFailed)
    else (Tokens(Rewrite(s.env, newToken), newToken), Rotated)
  }

  /** 64 characters, each a digit or a letter from a to f. */
  predicate IsHex64(token: string) {
    |token| == 64 && forall i :: 0 <= i < 64 ==> token[i] in "0123456789abcdef"
  }

  lemma LegalIsHex64(token: string)
    ensures LegalToken(token) <==> IsHex64(token)
  {
    assert forall c: char :: 'a' <= c <= 'f' || '0' <= c <= '9' <==> c in "0123456789abcdef";
  }

  /** Which reply comes when, and what it means: only `Rotated` changes anything, and then both places. */
  lemma RotateReplies(s: Tokens, newToken: string, ioFails: bool)
    ensures var (t, reply) := RotateStep(s, newToken, ioFails);
            (reply == InvalidToken <==> !IsHex64(newToken)) &&
            (reply == RotateFailed <==> IsHex64(newToken) && ioFails) &&
            (reply == Rotated ==> t.accepted == newToken && FileToken(t.env) == newToken) &&
            (reply != Rotated ==> t == s)
  {
    hide LegalToken, FileToken, Rewrite, IsHex64;
    LegalIsHex64(newToken);
    if LegalToken(newToken) {
      LegalIsClean(newToken);
      ReadBack(s.env, newToken);
    }
  }

  class Rotation {
    var env: string
    const auth: Auth.Authenticator

    constructor (env: string, auth: Auth.Authenticator)
      ensures this.env == env && this.auth == auth
    {
      this.env := env;
      this.auth := auth;
    }

    function Contents(): Tokens
      reads this, auth
    {
      Tokens(env, auth.token)
    }

    /** The file first; the authenticator switches only once the file holds the new token. */
    method Rotate(newToken: string, ioFails: bool) returns (reply: Reply)
      modifies this`env, auth`token
      ensures (Contents(), reply) == RotateStep(old(Contents()), newToken, ioFails)
      ensures reply == InvalidToken <==> !IsHex64(newToken)
      ensures reply == RotateFailed <==> IsHex64(newToken) && ioFails
      ensures reply == Rotated ==> auth.token == newToken && FileToken(env) == newToken
      ensures reply != Rotated ==> env == old(env) && auth.token == old(auth.token)
    {
      RotateReplies(Contents(), newToken, ioFails);
      if !LegalToken(newToken) {
        return InvalidToken;
      }
      if ioFails {
        return RotateFailed;
      }
      env := RewriteEnvFile(env, newToken);
      auth.UpdateToken(newToken);
      return Rotated;
    }
  }

  function RunRotations(s: Tokens, tries: seq<(string, bool)>): Tokens
    decreases |tries|
  {
    if tries == [] then s else RunRotations(RotateStep(s, tries[0].0, tries[0].1).0, tries[1..])
  }

  lemma LegalIsClean(token: string)
    requires LegalToken(token)
    ensures CleanToken(token) && token != ""
  {
  }

  /** Over every sequence of rotations, legal or not, failing or not, file and authenticator hold the same token. */
  lemma {:induction false} FileAndAuthAgree(s: Tokens, tries: seq<(string, bool)>)
    requires FileToken(s.env) == s.accepted
    ensures FileToken(RunRotations(s, tries).env) == RunRotations(s, tries).accepted
    decreases |tries|
  {
    hide LegalToken, FileToken, Rewrite;
    if tries != [] {
      if LegalToken(tries[0].0) {
        LegalIsClean(tries[0].0);
        ReadBack(s.env, tries[0].0);
      }
      FileAndAuthAgree(RotateStep(s, tries[0].0, tries[0].1).0, tries[1..]);
    }
  }

  /** The token of the last try that was well-formed and met no failure, or else the initial one. */
  function LastRotated(initial: string, tries: seq<(string, bool)>): string {
    if tries == [] then initial
    else
      var (token, ioFails) := tries[|tries| - 1];
      if IsHex64(token) && !ioFails then token else LastRotated(initial, tries[..|tries| - 1])
  }

  lemma {:induction false} LastRotatedTail(initial: string, tries: seq<(string, bool)>)
    requires tries != []
    ensures LastRotated(initial, tries) ==
            LastRotated(if IsHex64(tries[0].0) && !tries[0].1 then tries[0].0 else initial, tries[1..])
  {
    hide IsHex64;
    var n := |tries| - 1;
    if n == 0 {
      assert tries[..0] == [];
    } else {
      assert tries[1..][..n - 1] == tries[..n][1..];
      assert tries[1..][n - 1] == tries[n] && tries[..n][0] == tries[0];
      LastRotatedTail(initial, tries[..n]);
    }
  }

  /** Over every sequence of rotations the accepted token is that of the last one that went through. */
  lemma {:induction false} LastRotationCounts(s: Tokens, tries: seq<(string, bool)>)
    ensures RunRotations(s, tries).accepted == LastRotated(s.accepted, tries)
    decreases |tries|
  {
    hide LegalToken, IsHex64, Rewrite, FileToken;
    if tries != [] {
      RotateReplies(s, tries[0].0, tries[0].1);
      LastRotatedTail(s.accepted, tries);
      LastRotationCounts(RotateStep(s, tries[0].0, tries[0].1).0, tries[1..]);
    }
  }
}
