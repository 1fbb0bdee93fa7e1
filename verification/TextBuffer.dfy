// The output buffers of the shader passes: text is appended at a moving index.

module TextBuffer {
  predicate IsBlank(c: char) { c == ' ' || c == '\t' }

  // memcpy(out + o, s, |s|)
  method Append(out: array<char>, o: nat, s: string)
    requires o + |s| <= out.Length
    modifies out
    ensures out[..o + |s|] == old(out[..o]) + s
  {
    var i := 0;
    while i < |s|
      invariant 0 <= i <= |s| && out[..o] == old(out[..o])
      invariant forall k :: 0 <= k < i ==> out[o + k] == s[k]
    {
      out[o + i] := s[i];
      i := i + 1;
    }
  }
}
