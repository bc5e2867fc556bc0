/** The memory object: line loops over the file with flags and an output buffer. */
module MemoryStore {
  import opened Text
  import opened MemoryFile
  import opened MemoryLaws

  class Memory {
    var file: string

    constructor (file: string)
      ensures this.file == file
    {
      this.file := file;
    }

    /** memory_store */
    method Store(category: Option<string>, key: Option<string>, value: Option<string>) returns (ok: bool)
      requires LinesFit(Read(file))
      modifies this
      ensures ok <==> key.Some? && key.value != "" && value.Some?
      ensures ok ==> file == StoreFile(old(file), Fact(Canonicalise(category), key.value, value.value))
      ensures !ok ==> file == old(file)
    {
      hide IndexOf, CString, LineLength, Canonicalise, Stored, BulletKey, StoreHeading, IsHeading, IsBullet,
           Fact.Bullet;
      if key.None? || key.value == "" || value.None? { return false; }
      var section := Canonicalise(category);
      var f := Fact(section, key.value, value.value);
      var bullet := f.Bullet();
      var content := Read(file);
      var out := "";
      var inTarget, keyWritten, sectionFound := false, false, false;
      var line := content;
      while line != ""
        invariant LinesFit(line)
        invariant out + Stored(line, Scan(inTarget, keyWritten, sectionFound), f) == Stored(content, START, f)
        decreases |line|
      {
        StoredStep(out, line, Scan(inTarget, keyWritten, sectionFound), f);
        var len := LineLength(line);
        var linebuf := First(line[..len], LINE_BUFFER - 1);
        HeadingIsNoBullet(linebuf);
        if IsHeading(linebuf) {
          if inTarget && !keyWritten {
            out := out + (bullet + "\n");
            keyWritten := true;
          }
          inTarget := StoreHeading(linebuf) == section;
          if inTarget { sectionFound := true; }
        }
        if inTarget && IsBullet(linebuf) {
          if BulletKey(linebuf) == key.value {
            out := out + (bullet + "\n");
            keyWritten := true;
            line := line[len..];
            continue;
          }
        }
        assert linebuf[..len] == linebuf;
        out := out + linebuf[..len];
        line := line[len..];
      }
      StoredAtEnd(Scan(inTarget, keyWritten, sectionFound), f);
      if !keyWritten {
        if !sectionFound {
          out := out + ("\n## " + section + "\n\n" + bullet + "\n");
        } else {
          out := out + (bullet + "\n");
        }
      }
      file := out;
      return true;
    }

    /** memory_recall */
    method Recall(category: Option<string>, key: string) returns (result: Option<string>)
      ensures result == RecallFile(file, Canonicalise(category), key)
    {
      hide IndexOf, CString, LineLength, Canonicalise, Trim;
      var content := Read(file);
      var section := Canonicalise(category);
      var inTarget := false;
      var line := content;
      while line != ""
        invariant Recalled(line, inTarget, section, key) == Recalled(content, false, section, key)
        decreases |line|
      {
        var len := LineLength(line);
        var linebuf := First(line[..len], LINE_BUFFER - 1);
        if IsHeading(linebuf) {
          inTarget := RecallHeading(linebuf) == section;
        } else if inTarget && IsBullet(linebuf) {
          if HasColon(linebuf) {
            if BulletKey(linebuf) == key {
              return Some(BulletValue(linebuf));
            }
          }
        }
        line := line[len..];
      }
      return None;
    }
  }
}
