/**
 The configuration manager object (internal/provision/databases/postgres/pgconfig/configuration.go)
 and the files it rewrites.
 */
module PgConfigManagement {
  import opened PgConfig
  import opened PgAdjust

  class Manager {
    /** File contents by path. */
    var files: map<string, string>

    constructor (files: map<string, string>)
      ensures this.files == files
    {
      this.files := files;
    }

    /** The `key = 'value'` lines of the map, in some iteration order, joined by newlines. */
    method RenderLines(config: map<string, string>) returns (output: string)
      ensures exists order :: OrderOf(order, config) && output == Render(order, config)
    {
      var lines: seq<string> := [];
      ghost var order: seq<string> := [];
      var rest := config.Keys;
      while rest != {}
        invariant rest <= config.Keys
        invariant forall k :: k in order ==> k in config && k !in rest
        invariant forall k :: k in config && k !in rest ==> k in order
        invariant forall i, j :: 0 <= i < j < |order| ==> order[i] != order[j]
        invariant |lines| == |order| && forall i :: 0 <= i < |order| ==> lines[i] == Line(order[i], config[order[i]])
        decreases rest
      {
        var key :| key in rest;
        assert key in config;
        rest := rest - {key};
        lines := lines + [Line(key, config[key])];
        order := order + [key];
      }
      JoinIsRender(order, config, lines);
      output := Join(lines);
    }

    /** The file has one line `key = 'value'` for each key, in the order in which the map is walked. */
    lemma RenderedLines(order: seq<string>, config: map<string, string>)
      requires OrderOf(order, config) && order != []
      requires forall k :: k in config ==> '\n' !in k && '\n' !in config[k]
      ensures var lines := Split(Render(order, config));
        |lines| == |order| && forall i :: 0 <= i < |order| ==> lines[i] == order[i] + " = '" + config[order[i]] + "'"
    {
      var lines := seq(|order|, i requires 0 <= i < |order| => Line(order[i], config[order[i]]));
      JoinIsRender(order, config, lines);
      SplitJoin(lines);
    }

    lemma {:induction false} JoinIsRender(order: seq<string>, config: map<string, string>, lines: seq<string>)
      requires forall k :: k in order ==> k in config
      requires |lines| == |order| && forall i :: 0 <= i < |order| ==> lines[i] == Line(order[i], config[order[i]])
      ensures Join(lines) == Render(order, config)
    {
      if |order| > 1 {
        JoinIsRender(order[1..], config, lines[1..]);
      }
    }

    /** Whatever the iteration order, the file then reads back as the map if and only if the map is well-formed. */
    method RewriteConfig(path: string, config: map<string, string>)
      modifies this
      ensures path in files && files == old(files)[path := files[path]]
      ensures Read(files[path]) == config <==> WellFormed(config)
    {
      var output := RenderLines(config);
      ghost var order :| OrderOf(order, config) && output == Render(order, config);
      files := files[path := output];
      RoundTripIff(order, config);
    }

    /** The new parameters override what the file said, if and only if they are well-formed. */
    method AppendExtraConf(path: string, config: map<string, string>)
      modifies this
      ensures path in files && files == old(files)[path := files[path]]
      ensures var before := if path in old(files) then old(files)[path] else "";
        before <= files[path] && (Read(files[path]) == Read(before) + config <==> WellFormed(config))
    {
      var output := RenderLines(config);
      ghost var order :| OrderOf(order, config) && output == Render(order, config);
      var before := if path in files then files[path] else "";
      files := files[path := before + ("\n" + output)];
      AppendOverridesIff(before, order, config);
    }

    /** A file that cannot be opened reads as no parameters. */
    method ReadConfig(path: string) returns (config: map<string, string>)
      ensures config == if path in files then Read(files[path]) else map[]
    {
      config := map[];
      if path !in files {
        return;
      }
      var rest := files[path];
      while rest != ""
        invariant ReadFrom(rest, config) == Read(files[path])
        decreases |rest|
      {
        var i := IndexOf(rest, '\n');
        config := ReadEntry(DropCR(rest[..i]), config);
        rest := if i == |rest| then "" else rest[i + 1..];
      }
    }

    /** One scanned line. */
    method ReadEntry(line: string, config: map<string, string>) returns (r: map<string, string>)
      ensures r == ReadLine(line, config)
    {
      var i := IndexOf(line, '=');
      if i == |line| {
        return config;
      }
      var key := Trim(line[..i], IsSpace);
      r := config[key := Trim(Trim(line[i + 1..], IsSpace), IsQuote)];
    }

    /** Comments out and appends lines in place, unless the file carries the label; both files have to be readable. */
    method AdjustGeneralConfigs(source: string, path: string) returns (ok: bool)
      modifies this
      ensures ok == (source in old(files) && path in old(files))
      ensures files == if ok then old(files)[path := Adjust(old(files)[source], old(files)[path])] else old(files)
    {
      if source !in files {
        return false;
      }
      if path !in files {
        return false;
      }
      var output := AdjustedText(files[source], files[path]);
      files := files[path := output];
      return true;
    }

    method AdjustedText(source: string, content: string) returns (output: string)
      ensures output == Adjust(source, content)
    {
      var srcLines, dstLines := Split(source), Split(content);
      if dstLines[0] == INITIALIZED_LABEL {
        return content;
      }
      dstLines := ShiftLabelIn(dstLines);
      dstLines := ApplyLines(srcLines, dstLines);
      return Join(dstLines);
    }

    /** The source lines one after the other. */
    method ApplyLines(srcLines: seq<string>, lines: seq<string>) returns (dstLines: seq<string>)
      ensures dstLines == ApplySource(srcLines, lines)
    {
      dstLines := lines;
      for k := 0 to |srcLines|
        invariant ApplySource(srcLines[k..], dstLines) == ApplySource(srcLines, lines)
      {
        assert srcLines[k..][0] == srcLines[k] && srcLines[k..][1..] == srcLines[k + 1..];
        dstLines := ApplyOne(srcLines[k], dstLines);
      }
    }

    /** One source line: skipped, commenting out a parameter, or appended. */
    method ApplyOne(line: string, lines: seq<string>) returns (r: seq<string>)
      ensures r == ApplyLine(line, lines)
    {
      r := lines;
      if "##" <= line {
        return;
      }
      if "#" <= line {
        r := CommentLines(lines, Trim(line[1..], IsSpace));
        return;
      }
      if Trim(line, IsSpace) != "" {
        r := lines + [line];
      }
    }

    /** Grows the slice by one, shifts it by one place and puts the label in front. */
    method ShiftLabelIn(lines: seq<string>) returns (r: seq<string>)
      requires lines != []
      ensures r == [INITIALIZED_LABEL] + lines
    {
      var n := |lines|;
      r := lines + [INITIALIZED_LABEL];
      var i := n;
      while i > 0
        invariant 0 <= i <= n && |r| == n + 1
        invariant r[..i] == lines[..i] && r[i + 1..] == lines[i..]
      {
        r := r[i := r[i - 1]];
        i := i - 1;
        assert r[i + 1..] == [lines[i]] + lines[i + 1..];
      }
      r := r[0 := INITIALIZED_LABEL];
      assert r == [r[0]] + r[1..];
    }

    /** Marks in place every line that starts with the parameter. */
    method CommentLines(lines: seq<string>, param: string) returns (r: seq<string>)
      ensures r == CommentOut(lines, param)
    {
      r := lines;
      for i := 0 to |lines|
        invariant |r| == |lines|
        invariant forall k :: 0 <= k < i ==> r[k] == Mark(lines[k], param)
        invariant forall k :: i <= k < |lines| ==> r[k] == lines[k]
      {
        if param <= r[i] {
          r := r[i := "#" + r[i]];
        }
      }
    }
  }
}
