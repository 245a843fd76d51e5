// NFS version 3 status codes (section 2.6 of RFC 1813) and the translation of back-end errors.
module Status {
  import opened Bytes

  const NFS3_OK := 0
  const NFS3ERR_NOENT := 2
  const NFS3ERR_IO := 5
  const NFS3ERR_ACCES := 13
  const NFS3ERR_EXIST := 17
  const NFS3ERR_NOTDIR := 20
  const NFS3ERR_ISDIR := 21
  const NFS3ERR_INVAL := 22
  const NFS3ERR_NAMETOOLONG := 63
  const NFS3ERR_NOTEMPTY := 66
  const NFS3ERR_STALE := 70
  const NFS3ERR_BAD_COOKIE := 10003

  datatype GoError = Permission | NotExist | Invalid | Exist | Other(message: string)

  predicate Contains(s: string, part: string) {
    part <= s || (s != [] && Contains(s[1..], part))
  }

  lemma {:induction false} ContainsExactly(s: string, part: string)
    ensures Contains(s, part) <==> exists i :: 0 <= i <= |s| && part <= s[i..]
  {
    if part <= s {
      assert s[0..] == s;
    } else if s != [] {
      ContainsExactly(s[1..], part);
      if Contains(s[1..], part) {
        var i :| 0 <= i <= |s[1..]| && part <= s[1..][i..];
        assert s[1..][i..] == s[i + 1..];
      }
      if exists i :: 0 <= i <= |s| && part <= s[i..] {
        var i :| 0 <= i <= |s| && part <= s[i..];
        assert i > 0 by { assert s[0..] == s; }
        assert s[1..][i - 1..] == s[i..];
      }
    } else {
      assert forall i :: 0 <= i <= |s| ==> s[i..] == s;
    }
  }

  // The status sent for a Go error, and whether it was recognised. Success is never made up
  // out of an error, nor the other way round; only an unrecognised error is an I/O error.
  function ErrTranslator(err: Option<GoError>): (r: (int, bool))
    ensures r.0 == NFS3_OK <==> err == None
    ensures 0 <= r.0 <= NFS3ERR_NOTEMPTY
    ensures r.1 <==> r.0 != NFS3ERR_IO
  {
    match err
    case None => (NFS3_OK, true)
    case Some(Permission) => (NFS3ERR_ACCES, true)
    case Some(NotExist) => (NFS3ERR_NOENT, true)
    case Some(Invalid) => (NFS3ERR_INVAL, true)
    case Some(Exist) => (NFS3ERR_EXIST, true)
    case Some(Other(message)) =>
      if Contains(message, "not empty") then (NFS3ERR_NOTEMPTY, true) else (NFS3ERR_IO, false)
  }

  lemma {:induction false} NotEmptyRecognised()
    ensures ErrTranslator(Some(Other("directory not empty"))) == (66, true)
  {
    var m := "directory not empty";
    assert m[10..] == "not empty";
    ContainsExactly(m, "not empty");
    hide Contains;
  }
}
