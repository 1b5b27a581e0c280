/**
 * Key classification for the key-down handler: the key name is lower-cased
 * and compared with the arrow names, the WASD letters and "r".
 */
module Keys {
  import opened Wrappers

  /** Lower-casing of one character; only the ASCII capitals change. */
  function LowerChar(c: char): (r: char)
    ensures 'A' <= c <= 'Z' ==> r as int == c as int + 32
    ensures !('A' <= c <= 'Z') ==> r == c
    ensures !('A' <= r <= 'Z')
  {
    if 'A' <= c <= 'Z' then (c as int + 32) as char else c
  }

  /** `String.prototype.toLowerCase` restricted to ASCII. */
  function Lower(s: string): (r: string)
    ensures |r| == |s|
    ensures forall i :: 0 <= i < |s| ==> r[i] == LowerChar(s[i])
  {
    seq(|s|, i requires 0 <= i < |s| => LowerChar(s[i]))
  }

  /** Lower-casing twice is lower-casing once. */
  lemma LowerIdempotent(s: string)
    ensures Lower(Lower(s)) == Lower(s)
  {
    var l := Lower(s);
    assert forall i :: 0 <= i < |l| ==> Lower(l)[i] == l[i];
  }

  /** A grid step requested by a key. */
  datatype Delta = Delta(dx: int, dy: int)

  /** The step a lower-cased key name asks for. */
  function StepForName(k: string): (m: Option<Delta>)
    ensures m.Some? ==> (m.value.dx == 0) != (m.value.dy == 0)
    ensures m.Some? ==> -1 <= m.value.dx <= 1 && -1 <= m.value.dy <= 1
    ensures m.None? <==> k !in {"arrowup", "w", "arrowdown", "s", "arrowleft", "a", "arrowright", "d"}
  {
    if k == "arrowup" || k == "w" then Some(Delta(0, -1))
    else if k == "arrowdown" || k == "s" then Some(Delta(0, 1))
    else if k == "arrowleft" || k == "a" then Some(Delta(-1, 0))
    else if k == "arrowright" || k == "d" then Some(Delta(1, 0))
    else None
  }

  /** The step a key asks for: up, down, left or right, in either layout and
      either case; any other key asks for no step. */
  function StepFor(key: string): Option<Delta> {
    StepForName(Lower(key))
  }

  /** The restart key, in either case. */
  predicate IsRestartKey(key: string) {
    Lower(key) == "r"
  }

  /** Key handling ignores case. */
  lemma StepForIgnoresCase(key: string)
    ensures StepFor(Lower(key)) == StepFor(key)
  {
    LowerIdempotent(key);
  }

  /** The lower-cased names of the arrow keys. */
  lemma LowerArrowNames()
    ensures Lower("ArrowUp") == "arrowup" && Lower("ArrowDown") == "arrowdown"
    ensures Lower("ArrowLeft") == "arrowleft" && Lower("ArrowRight") == "arrowright"
  {
    assert Lower("ArrowUp") == "arrowup";
    assert Lower("ArrowDown") == "arrowdown";
    assert Lower("ArrowLeft") == "arrowleft";
    assert Lower("ArrowRight") == "arrowright";
  }

  /** "ArrowUp", "w" and "W" all ask for the same step. */
  lemma UpKeys()
    ensures StepFor("ArrowUp") == Some(Delta(0, -1))
    ensures StepFor("w") == StepFor("W") == Some(Delta(0, -1))
  {
    LowerArrowNames();
    assert StepForName("arrowup") == Some(Delta(0, -1));
    assert Lower("W") == "w" && Lower("w") == "w";
  }

  /** "ArrowDown", "s" and "S" all ask for the same step. */
  lemma DownKeys()
    ensures StepFor("ArrowDown") == Some(Delta(0, 1))
    ensures StepFor("s") == StepFor("S") == Some(Delta(0, 1))
  {
    LowerArrowNames();
    assert StepForName("arrowdown") == Some(Delta(0, 1));
    assert Lower("S") == "s" && Lower("s") == "s";
  }

  /** "ArrowLeft", "a" and "A" all ask for the same step. */
  lemma LeftKeys()
    ensures StepFor("ArrowLeft") == Some(Delta(-1, 0))
    ensures StepFor("a") == StepFor("A") == Some(Delta(-1, 0))
  {
    LowerArrowNames();
    assert StepForName("arrowleft") == Some(Delta(-1, 0));
    assert Lower("A") == "a" && Lower("a") == "a";
  }

  /** "ArrowRight", "d" and "D" all ask for the same step. */
  lemma RightKeys()
    ensures StepFor("ArrowRight") == Some(Delta(1, 0))
    ensures StepFor("d") == StepFor("D") == Some(Delta(1, 0))
  {
    LowerArrowNames();
    assert StepForName("arrowright") == Some(Delta(1, 0));
    assert Lower("D") == "d" && Lower("d") == "d";
  }

  /** "r" and "R" restart; no key is both a movement key and the restart key. */
  lemma RestartKeyTable(k: string)
    ensures IsRestartKey("r") && IsRestartKey("R")
    ensures StepFor(k).Some? ==> !IsRestartKey(k)
  {
    assert Lower("R") == "r" && Lower("r") == "r";
  }
}
