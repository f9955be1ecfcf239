/** What vfs_generate_path leaves in the caller's memory. */
module Printing {
  import opened Strings
  import opened Tree

  /** The text with the root's "/" in place of the empty one. */
  function Shown(text: string): string { if text == "" then "/" else text }

  /** Memory from buf on, of which bytes belong to the buffer, after text was printed into it. */
  function PrintedInto(was: seq<char>, bytes: nat, text: string): (r: seq<char>)
    requires bytes + 2 <= |was|
    ensures |r| == |was|
  {
    if |text| > bytes then was else seq(|was|, k requires 0 <= k < |was| => PrintedAt(was, bytes, text, k))
  }

  function PrintedAt(was: seq<char>, bytes: nat, text: string, k: nat): char
    requires k < |was|
  {
    if k < |Shown(text)| then Shown(text)[k] else if k == |Shown(text)| || k < bytes then '\0' else was[k]
  }

  function Zeros(n: nat): (z: string)
    ensures |z| == n
  {
    seq(n, _ => '\0')
  }

  /** The bytes behind the buffer stay as they are, whatever they are, exactly when the text with its end fits
      or is refused. The test in the code lets a text pass that leaves no room for its end, and the root's
      "/" is written without any test of the room. */
  lemma PrintStaysInside(bytes: nat, text: string)
    ensures (forall was: seq<char> :: bytes + 2 <= |was| ==> PrintedInto(was, bytes, text)[bytes..] == was[bytes..])
      <==> if text == "" then bytes >= 2 else |text| != bytes
  {
    hide PrintedInto;
    if |text| <= bytes <= |Shown(text)| {
      Overrun(bytes, text);
    } else {
      forall was: seq<char> | bytes + 2 <= |was| ensures PrintedInto(was, bytes, text)[bytes..] == was[bytes..] {
        StaysInside(was, bytes, text);
      }
    }
  }

  lemma StaysInside(was: seq<char>, bytes: nat, text: string)
    requires bytes + 2 <= |was| && (|text| > bytes || |Shown(text)| < bytes)
    ensures PrintedInto(was, bytes, text)[bytes..] == was[bytes..]
  {
  }

  lemma Overrun(bytes: nat, text: string)
    requires |text| <= bytes <= |Shown(text)|
    ensures exists was: seq<char> :: bytes + 2 <= |was| && PrintedInto(was, bytes, text)[bytes..] != was[bytes..]
  {
    var was: seq<char> := seq(bytes + 2, _ => 'x');
    var n, r := |Shown(text)|, PrintedInto(was, bytes, text);
    assert r[n] == '\0' && was[n] == 'x';
    assert r[bytes..][n - bytes] != was[bytes..][n - bytes];
  }

  /** What a reader of the buffer sees: the printed path, when it was not refused. */
  lemma PrintedText(was: seq<char>, bytes: nat, names: seq<string>)
    requires bytes + 2 <= |was| && |PathText(names)| <= bytes && '\0' !in PathText(names)
    ensures Text(PrintedInto(was, bytes, PathText(names))) == Printed(names)
  {
    var r := PrintedInto(was, bytes, PathText(names));
    if names != [] {
      PathJoin(names);
    }
    assert Shown(PathText(names)) == Printed(names);
    TextIs(r, Printed(names));
  }

  lemma {:induction false} PathZeroFree(names: seq<string>)
    requires forall i :: 0 <= i < |names| ==> GoodName(names[i])
    ensures '\0' !in PathText(names)
  {
    if names != [] {
      PathZeroFree(names[..|names| - 1]);
    }
  }

  /** Looking up what the buffer holds after an inode's path was printed into it gives the inode. */
  lemma LookupPrintedInto(fs: Fs, root: nat, cwd: nat, x: nat, was: seq<char>, bytes: nat)
    requires TreeOk(fs, root) && cwd < |fs| && x < |fs| && Names(fs, root, x).Some?
    requires bytes + 2 <= |was| && |PathText(Names(fs, root, x).value)| <= bytes
    ensures Lookup(fs, root, cwd, Text(PrintedInto(was, bytes, PathText(Names(fs, root, x).value)))) == Found(x)
  {
    var names := Names(fs, root, x).value;
    NamesLead(fs, root, x);
    PathZeroFree(names);
    PrintedText(was, bytes, names);
    LookupPrinted(fs, root, cwd, x);
  }

  /** The parent's text is the beginning of the child's. */
  lemma TextStep(names: seq<string>, name: string)
    ensures PathText(names + [name]) == PathText(names) + "/" + name
  {
    assert (names + [name])[..|names|] == names;
  }
}
