/** The logger's level and filter state, the decision whether a message is
    written at all, the trimming of a formatted message, and the timestamp
    used in the log file's name. */
module Logging {

  /** The log levels. Invalid is what a failed name lookup yields. */
  datatype LogLevel = Invalid | None | Fatal | Err | Warn | Info | Debug

  /** The position of a level in the enumeration: the six named levels in the
      order the logger registers their names, Invalid after them. */
  function Ordinal(l: LogLevel): int
  {
    match l
    case None => 0
    case Fatal => 1
    case Err => 2
    case Warn => 3
    case Info => 4
    case Debug => 5
    case Invalid => 6
  }

  /** The level the logger starts at and falls back to. */
  const DefaultLevel: LogLevel := Debug

  /** The registered level names, in the order the level-to-name table is
      iterated (ascending level). */
  const LevelNames: seq<(LogLevel, string)> :=
    [(None, "None"), (Fatal, "Fatal"), (Err, "Error"), (Warn, "Warn"), (Info, "Info"), (Debug, "Debug")]

  /** The longest message the formatting buffer holds (4096 bytes with the terminator). */
  const MessageCapacity: int := 4095

  /** The level whose registered name is exactly s, or Invalid. */
  function LevelNamed(s: string): (l: LogLevel)
    ensures forall i :: 0 <= i < |LevelNames| ==> (LevelNames[i].1 == s <==> LevelNames[i].0 == l)
    ensures l != Invalid ==> (l, s) in LevelNames
  {
    if s == "None" then None
    else if s == "Fatal" then Fatal
    else if s == "Error" then Err
    else if s == "Warn" then Warn
    else if s == "Info" then Info
    else if s == "Debug" then Debug
    else Invalid
  }

  /** Every registered name leads back to its own level. */
  lemma NameRoundTrip(i: int)
    requires 0 <= i < |LevelNames|
    ensures LevelNamed(LevelNames[i].1) == LevelNames[i].0
  {
  }

  /** The lookup compares exactly: a name in other letter case is not found. */
  lemma LookUpCaseSensitive()
    ensures LevelNamed("debug") == Invalid && LevelNamed("DEBUG") == Invalid && LevelNamed("") == Invalid
  {
  }

  /** Does needle occur in hay starting at position k? */
  predicate OccursAt(hay: string, needle: string, k: int)
  {
    0 <= k && k + |needle| <= |hay| && hay[k..k + |needle|] == needle
  }

  /** The first position at or after i where needle occurs in hay, or -1 (npos). */
  function FindFrom(hay: string, needle: string, i: nat): (r: int)
    requires i <= |hay|
    ensures r == -1 || (i <= r && OccursAt(hay, needle, r))
    ensures forall k :: i <= k && (r == -1 || k < r) ==> !OccursAt(hay, needle, k)
    decreases |hay| - i
  {
    if i + |needle| > |hay| then -1
    else if hay[i..i + |needle|] == needle then i
    else FindFrom(hay, needle, i + 1)
  }

  /** std::string::find: the first position of needle in hay, or -1. */
  function Find(hay: string, needle: string): int
  {
    FindFrom(hay, needle, 0)
  }

  /** find returns 0 exactly when hay starts with needle. */
  lemma FindZeroIffPrefix(hay: string, needle: string)
    ensures Find(hay, needle) == 0 <==> needle <= hay
  {
    if needle <= hay {
      assert hay[0..|needle|] == needle;
    }
    if Find(hay, needle) == 0 {
      assert hay[0..|needle|] == needle;
    }
  }

  /** The gate at the top of realLog: a message below the current level is
      dropped, and with a function filter set, so is a message whose function
      name find() locates at position 0 (the comparison with `false`). */
  predicate Passes(lvl: LogLevel, func: string, current: LogLevel, funcFilter: string)
  {
    if Ordinal(lvl) < Ordinal(current) then false
    else if funcFilter != [] && Find(func, funcFilter) == 0 then false
    else true
  }

  /** The gate in plain terms: a message passes exactly when its level is not
      below the current one and, with a filter set, its function name does not
      start with the filter. */
  lemma PassesExactly(lvl: LogLevel, func: string, current: LogLevel, funcFilter: string)
    ensures Passes(lvl, func, current, funcFilter) <==>
      Ordinal(lvl) >= Ordinal(current) && (funcFilter == [] || !(funcFilter <= func))
  {
    FindZeroIffPrefix(func, funcFilter);
  }

  /** The filter keeps the functions it names and passes all others: a
      function called exactly like the filter is dropped, a function whose
      name does not start with it is kept. */
  lemma FuncFilterInverted(lvl: LogLevel, func: string, funcFilter: string)
    requires funcFilter != [] && Ordinal(lvl) >= Ordinal(Debug)
    ensures !Passes(lvl, funcFilter, Debug, funcFilter)
    ensures !(funcFilter <= func) ==> Passes(lvl, func, Debug, funcFilter)
  {
    FindZeroIffPrefix(funcFilter, funcFilter);
    FindZeroIffPrefix(func, funcFilter);
  }

  /** With the levels in registration order and the gate dropping every level
      below the current one, the default level Debug lets only Debug messages
      through. */
  lemma DefaultLevelKeepsOnlyDebug(lvl: LogLevel, func: string)
    requires lvl != Invalid
    ensures Passes(lvl, func, DefaultLevel, []) <==> lvl == Debug
  {
  }

  /** Under the same ordering, the level None lets every message through. */
  lemma NoneKeepsEverything(lvl: LogLevel, func: string)
    ensures Passes(lvl, func, None, [])
  {
  }

  /** What the formatting buffer keeps of a formatted message. */
  function Clipped(formatted: string): (r: string)
    ensures |r| <= MessageCapacity && r <= formatted
    ensures |r| == if |formatted| > MessageCapacity then MessageCapacity else |formatted|
    ensures |formatted| <= MessageCapacity ==> r == formatted
  {
    if |formatted| > MessageCapacity then formatted[..MessageCapacity] else formatted
  }

  /** The message with one trailing newline removed, if it ends in one. */
  function Trimmed(msg: string): (r: string)
    ensures |msg| > 0 && msg[|msg| - 1] == '\n' ==> r + "\n" == msg
    ensures !(|msg| > 0 && msg[|msg| - 1] == '\n') ==> r == msg
  {
    if |msg| > 0 && msg[|msg| - 1] == '\n' then msg[..|msg| - 1] else msg
  }

  /** Only one newline is removed. */
  lemma TrimsOnlyOne()
    ensures Trimmed("a\n\n") == "a\n"
  {
    assert "a\n\n"[..2] == "a\n";
  }

  /** The text a NUL-terminated char buffer holds: everything before the first NUL. */
  function CString(buf: seq<char>): (r: string)
    ensures '\0' !in r && r <= buf
  {
    if buf == [] || buf[0] == '\0' then [] else [buf[0]] + CString(buf[1..])
  }

  lemma {:induction false} CStringAt(buf: seq<char>, k: nat)
    requires k < |buf| && buf[k] == '\0' && '\0' !in buf[..k]
    ensures CString(buf) == buf[..k]
  {
    if k > 0 {
      assert buf[1..][..k - 1] == buf[1..k];
      assert '\0' !in buf[1..][..k - 1];
      CStringAt(buf[1..], k - 1);
    }
  }

  /** The shape of ctime's text, "Www Mmm dd hh:mm:ss yyyy\n": its only colons
      are at positions 13 and 16. */
  predicate CtimeShaped(t: string)
  {
    |t| == 25 && t[24] == '\n' &&
    forall i :: 0 <= i < |t| && t[i] == ':' ==> i == 13 || i == 16
  }

  /** A message that passed the gate, as the output step receives it. */
  datatype LogEntry = LogEntry(func: string, lvl: LogLevel, message: string)

  /** The logger. `written` stands for everything the output step received:
      the console, the on-screen alerts and the log file. */
  class Log {
    var loglvl: LogLevel
    var funcfilter: string
    var filter: string
    var written: seq<LogEntry>

    constructor ()
      ensures loglvl == DefaultLevel && funcfilter == [] && filter == [] && written == []
    {
      loglvl := DefaultLevel;
      funcfilter := [];
      filter := [];
      written := [];
    }

    /** Searches the registered names, in level order, for s. */
    static method ReverseLookUp(s: string) returns (l: LogLevel)
      ensures l == LevelNamed(s)
      ensures l != Invalid ==> (l, s) in LevelNames
    {
      var i := 0;
      while i < |LevelNames|
        invariant 0 <= i <= |LevelNames|
        invariant forall k :: 0 <= k < i ==> LevelNames[k].1 != s
      {
        if LevelNames[i].1 == s {
          NameRoundTrip(i);
          return LevelNames[i].0;
        }
        i := i + 1;
      }
      return Invalid;
    }

    /** Sets the level by name; an unknown name reverts to the default level
        and reports false. */
    method SetLevelNamed(name: string) returns (ok: bool)
      modifies this`loglvl
      ensures ok <==> LevelNamed(name) != Invalid
      ensures loglvl == if ok then LevelNamed(name) else DefaultLevel
    {
      loglvl := ReverseLookUp(name);
      if loglvl == Invalid {
        loglvl := DefaultLevel;
        return false;
      }
      return true;
    }

    /** Sets the level directly; always succeeds. */
    method SetLevel(lvl: LogLevel) returns (ok: bool)
      modifies this`loglvl
      ensures ok && loglvl == lvl
    {
      loglvl := lvl;
      return true;
    }

    /** Sets the function filter; the empty string clears it. */
    method SetFuncFilter(f: string)
      modifies this`funcfilter
      ensures funcfilter == f
    {
      funcfilter := [];
      if f != [] {
        funcfilter := f;
      }
    }

    /** Sets the message filter; the empty string clears it. */
    method SetMsgFilter(f: string)
      modifies this`filter
      ensures filter == f
    {
      filter := [];
      if f != [] {
        filter := f;
      }
    }

    /** Logs a formatted message: dropped by the gate, or clipped to the
        buffer, trimmed of a final newline and handed to the output step. */
    method RealLog(lvl: LogLevel, func: string, formatted: string)
      modifies this`written
      ensures Passes(lvl, func, loglvl, funcfilter) ==>
        written == old(written) + [LogEntry(func, lvl, Trimmed(Clipped(formatted)))]
      ensures !Passes(lvl, func, loglvl, funcfilter) ==> written == old(written)
    {
      if Ordinal(lvl) < Ordinal(loglvl) {
        return;
      }
      if funcfilter != [] {
        if Find(func, funcfilter) == 0 {
          return;
        }
      }
      var logBuffer := if |formatted| > MessageCapacity then formatted[..MessageCapacity] else formatted;
      var n := |logBuffer|;
      if n > 0 && logBuffer[n - 1] == '\n' {
        logBuffer := logBuffer[..n - 1];
      }
      written := written + [LogEntry(func, lvl, logBuffer)];
    }

    /** The timestamp for the log file's name: ctime's text without its final
        character, with positions 13 and 16 (the colons) replaced by '_'. */
    static method GetTimestamp(ctimeText: string) returns (stamp: string)
      requires |ctimeText| >= 18 && '\0' !in ctimeText
      ensures |stamp| == |ctimeText| - 1
      ensures forall i :: 0 <= i < |stamp| ==> stamp[i] == if i == 13 || i == 16 then '_' else ctimeText[i]
      ensures CtimeShaped(ctimeText) ==> ':' !in stamp && |stamp| == 24
    {
      var n := |ctimeText|;
      var timestamp := new char[n + 1](i requires 0 <= i <= n => if i < n then ctimeText[i] else '\0');
      timestamp[n - 1] := '\0';
      timestamp[13] := '_';
      timestamp[16] := '_';
      CStringAt(timestamp[..], n - 1);
      stamp := CString(timestamp[..]);
    }
  }
}
