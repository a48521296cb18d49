/**
 * Shell-command strings that depend on the operating-system choice; both the
 * onboarding wizard and the implementation page show and copy them.
 */
module Commands {

  datatype Option<T> = None | Some(value: T)

  /** The two choices of the OS selector. */
  datatype OS = Unix | Windows

  const UnixActivate: string := "source venv/bin/activate"
  const WindowsActivate: string := "venv\\Scripts\\activate"

  /** The virtual-environment activation command shown (and copied) for `os`. */
  function ActivateCommand(os: OS): (r: string)
    ensures r == UnixActivate <==> os == Unix
    ensures r == WindowsActivate <==> os == Windows
    ensures r != ""
  {
    assert UnixActivate[0] == 's' && WindowsActivate[0] == 'v';
    match os
    case Unix => UnixActivate
    case Windows => WindowsActivate
  }

  /** Whether `c` occurs in `s`. */
  predicate Contains(s: string, c: char)
  {
    exists i :: 0 <= i < |s| && s[i] == c
  }

  /** The two variants are told apart by their path separator: the Windows
      command has a backslash and no slash, the Unix one the reverse. */
  lemma ActivateSeparators(os: OS)
    ensures Contains(ActivateCommand(os), '\\') <==> os == Windows
    ensures Contains(ActivateCommand(os), '/') <==> os == Unix
  {
    if os == Unix {
      assert UnixActivate[11] == '/';
      assert !Contains(UnixActivate, '\\') by {
        forall i | 0 <= i < |UnixActivate| ensures UnixActivate[i] != '\\' {
        }
      }
    } else {
      assert WindowsActivate[4] == '\\';
      assert !Contains(WindowsActivate, '/') by {
        forall i | 0 <= i < |WindowsActivate| ensures WindowsActivate[i] != '/' {
        }
      }
    }
  }
}
