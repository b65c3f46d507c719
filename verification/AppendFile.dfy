/**
  The log file.  fwrite may take any part of what it is given, so appending is a loop.
 */
module AppendFiles {

  /** What one fwrite does: how much it takes at most, and whether the stream's error flag is raised. */
  datatype Fwrite = Fwrite(takes: nat, fails: bool)

  class AppendFile {
    var contents: string
    var error: bool
    /** The outcomes still to come.  Once they are used up, fwrite takes everything. */
    var script: seq<Fwrite>

    constructor (script: seq<Fwrite>)
      ensures contents == "" && !error && this.script == script
    {
      contents, error, this.script := "", false, script;
    }

    method Write(text: string) returns (n: nat)
      modifies this
      ensures n <= |text| && contents == old(contents) + text[..n]
      ensures old(error) ==> error
      ensures |script| <= |old(script)|
      ensures n < |text| ==> |script| < |old(script)|
    {
      n := |text|;
      if script != [] {
        if script[0].takes < n { n := script[0].takes; }
        error := error || script[0].fails;
        script := script[1..];
      }
      contents := contents + text[..n];
    }

    /** Writes the text, all of it and in order, or a prefix of it when the stream has failed. */
    method Append(text: string) returns (n: nat)
      modifies this
      ensures n <= |text| && contents == old(contents) + text[..n]
      ensures n < |text| ==> error
      ensures old(error) ==> error
    {
      n := Write(text);
      var remain := |text| - n;
      while remain > 0
        invariant n <= |text| && remain == |text| - n
        invariant contents == old(contents) + text[..n]
        invariant old(error) ==> error
        decreases |script|, remain
      {
        ghost var before := contents;
        var more := Write(text[n..]);
        if more == 0 {
          if error {
            assert text[n..][..0] == [];
            break;
          }
        }
        assert text[..n] + text[n..][..more] == text[..n + more];
        n := n + more;
        remain := |text| - n;
      }
    }
  }
}
