/** DescriptorPool::Tables: the symbol, file and extension tables of a pool, the strings it owns, and the
    transaction log behind Checkpoint and Rollback.  A table key is a pointer to an owned string, here its
    index in `strings`; a pointer into a freed string would be an index past the end. */
module PoolTables {
  import opened Descriptors

  datatype Snapshot = Snapshot(strings: seq<string>, symbols: map<string, Symbol>, files: map<string, FileProto>,
    extensions: map<ExtensionKey, string>)

  datatype FixedPart = FixedPart(base: Snapshot, files: map<string, FileProto>, extensions: map<ExtensionKey, string>,
    pending: seq<string>, knownBad: set<string>)

  /** Every key of the table points to an owned string with the text of the key. */
  predicate Owned<V>(table: map<string, V>, keys: map<string, nat>, strings: seq<string>) {
    table.Keys == keys.Keys && forall k :: k in keys ==> keys[k] < |strings| && strings[keys[k]] == k
  }

  /** The log lists the keys that were inserted into the table on top of base, and base keys lie before the checkpoint. */
  ghost predicate Logged<V>(base: map<string, V>, table: map<string, V>, keys: map<string, nat>, log: seq<nat>,
      strings: seq<string>, before: nat)
  {
    && (forall k :: k in base ==> k in table && k in keys && table[k] == base[k] && keys[k] < before)
    && (forall i :: 0 <= i < |log| ==> log[i] < |strings| && strings[log[i]] in table && strings[log[i]] !in base)
    && (forall k :: k in table && k !in base ==> exists i :: 0 <= i < |log| && log[i] < |strings| && strings[log[i]] == k)
  }

  ghost predicate LoggedExtensions(base: map<ExtensionKey, string>, table: map<ExtensionKey, string>, log: seq<ExtensionKey>) {
    && (forall k :: k in base ==> k in table && table[k] == base[k])
    && (forall i :: 0 <= i < |log| ==> log[i] in table && log[i] !in base)
    && (forall k :: k in table && k !in base ==> k in log)
  }

  function Without<K, V>(table: map<K, V>, key: K): map<K, V> { map k | k in table && k != key :: table[k] }

  /** The table after the listed keys have been erased one by one. */
  function Erased<K, V>(table: map<K, V>, keys: seq<K>): map<K, V> {
    if keys == [] then table else Without(Erased(table, keys[..|keys| - 1]), keys[|keys| - 1])
  }

  lemma NothingErased<K, V>(table: map<K, V>, keys: seq<K>)
    ensures Erased(table, keys[..0]) == table
  {
  }

  lemma ErasedStep<K, V>(table: map<K, V>, keys: seq<K>, i: nat)
    requires i < |keys|
    ensures Erased(table, keys[..i + 1]) == Without(Erased(table, keys[..i]), keys[i])
  {
    assert keys[..i + 1][..i] == keys[..i];
  }

  lemma {:induction false} ErasedKeys<K, V>(table: map<K, V>, keys: seq<K>, k: K)
    ensures k in Erased(table, keys) <==> k in table && k !in keys
    ensures k in Erased(table, keys) ==> Erased(table, keys)[k] == table[k]
  {
    if keys != [] {
      ErasedKeys(table, keys[..|keys| - 1], k);
      assert keys == keys[..|keys| - 1] + [keys[|keys| - 1]];
    }
  }

  /** The texts the log's pointers point to. */
  function Texts(log: seq<nat>, strings: seq<string>): (texts: seq<string>)
    requires forall i :: 0 <= i < |log| ==> log[i] < |strings|
    ensures |texts| == |log|
  {
    seq(|log|, i requires 0 <= i < |log| => strings[log[i]])
  }

  /** Erasing what the log lists restores the table of the checkpoint, and its keys. */
  lemma EraseRestores<V>(base: map<string, V>, table: map<string, V>, keys: map<string, nat>, log: seq<nat>,
      strings: seq<string>, before: nat)
    requires before <= |strings| && Owned(table, keys, strings) && Logged(base, table, keys, log, strings, before)
    ensures forall i :: 0 <= i < |log| ==> log[i] < |strings|
    ensures Erased(table, Texts(log, strings)) == base
    ensures Owned(base, Erased(keys, Texts(log, strings)), strings[..before])
    ensures Logged(base, base, Erased(keys, Texts(log, strings)), [], strings[..before], before)
  {
    var texts := Texts(log, strings);
    var kept := Erased(keys, texts);
    forall k ensures k in texts <==> k in table && k !in base { LogLists(base, table, keys, log, strings, before, k); }
    forall k ensures k in Erased(table, texts) <==> k in base
      ensures k in base ==> Erased(table, texts)[k] == base[k]
    {
      ErasedKeys(table, texts, k);
    }
    forall k ensures k in kept <==> k in base
      ensures k in base ==> kept[k] == keys[k]
    {
      ErasedKeys(keys, texts, k);
    }
  }

  lemma Inserted<V>(base: map<string, V>, table: map<string, V>, keys: map<string, nat>, log: seq<nat>,
      strings: seq<string>, before: nat, key: nat, value: V)
    requires key < |strings| && strings[key] !in table
    requires Owned(table, keys, strings) && Logged(base, table, keys, log, strings, before)
    ensures Owned(table[strings[key] := value], keys[strings[key] := key], strings)
    ensures Logged(base, table[strings[key] := value], keys[strings[key] := key], log + [key], strings, before)
  {
    var table', log' := table[strings[key] := value], log + [key];
    forall k | k in table' && k !in base ensures exists i :: 0 <= i < |log'| && log'[i] < |strings| && strings[log'[i]] == k {
      if k == strings[key] {
        assert log'[|log|] == key;
      } else {
        var i :| 0 <= i < |log| && log[i] < |strings| && strings[log[i]] == k;
        assert log'[i] == log[i];
      }
    }
  }

  lemma Allocated<V>(base: map<string, V>, table: map<string, V>, keys: map<string, nat>, log: seq<nat>,
      strings: seq<string>, before: nat, value: string)
    requires Owned(table, keys, strings) && Logged(base, table, keys, log, strings, before)
    ensures Owned(table, keys, strings + [value]) && Logged(base, table, keys, log, strings + [value], before)
  {
    forall k | k in table && k !in base
      ensures exists i :: 0 <= i < |log| && log[i] < |strings + [value]| && (strings + [value])[log[i]] == k
    {
      var i :| 0 <= i < |log| && log[i] < |strings| && strings[log[i]] == k;
      assert (strings + [value])[log[i]] == k;
    }
  }

  lemma EraseExtensionsRestores(base: map<ExtensionKey, string>, table: map<ExtensionKey, string>, log: seq<ExtensionKey>)
    requires LoggedExtensions(base, table, log)
    ensures Erased(table, log) == base
  {
    var left := Erased(table, log);
    forall k ensures k in left <==> k in base
      ensures k in base ==> left[k] == base[k]
    {
      ErasedKeys(table, log, k);
    }
  }

  lemma NothingLogged(table: map<ExtensionKey, string>)
    ensures LoggedExtensions(table, table, [])
  {
  }

  lemma LogLists<V>(base: map<string, V>, table: map<string, V>, keys: map<string, nat>, log: seq<nat>,
      strings: seq<string>, before: nat, k: string)
    requires Logged(base, table, keys, log, strings, before)
    ensures k in Texts(log, strings) <==> k in table && k !in base
  {
    var texts := Texts(log, strings);
    if k in table && k !in base {
      var i :| 0 <= i < |log| && log[i] < |strings| && strings[log[i]] == k;
      assert texts[i] == k;
    }
  }

  class Tables {
    var strings: seq<string>
    var symbolsByName: map<string, Symbol>
    var symbolKeys: map<string, nat>
    var filesByName: map<string, FileProto>
    var fileKeys: map<string, nat>
    var extensions: map<ExtensionKey, string>

    var stringsBeforeCheckpoint: nat
    var symbolsAfterCheckpoint: seq<nat>
    var filesAfterCheckpoint: seq<nat>
    var extensionsAfterCheckpoint: seq<ExtensionKey>

    var pendingFiles: seq<string>
    var knownBadFiles: set<string>

    ghost var base: Snapshot   // the state at the last checkpoint

    ghost predicate Valid()
      reads this
    {
      && Owned(symbolsByName, symbolKeys, strings) && Owned(filesByName, fileKeys, strings)
      && stringsBeforeCheckpoint == |base.strings| <= |strings| && strings[..stringsBeforeCheckpoint] == base.strings
      && Logged(base.symbols, symbolsByName, symbolKeys, symbolsAfterCheckpoint, strings, stringsBeforeCheckpoint)
      && Logged(base.files, filesByName, fileKeys, filesAfterCheckpoint, strings, stringsBeforeCheckpoint)
      && LoggedExtensions(base.extensions, extensions, extensionsAfterCheckpoint)
    }

    /** What building up a file leaves alone. */
    ghost function Fixed(): FixedPart
      reads this
    {
      FixedPart(base, filesByName, extensions, pendingFiles, knownBadFiles)
    }

    ghost function Current(): Snapshot
      reads this
    {
      Snapshot(strings, symbolsByName, filesByName, extensions)
    }

    constructor ()
      ensures Valid() && Current() == Snapshot([], map[], map[], map[]) && base == Current()
      ensures pendingFiles == [] && knownBadFiles == {}
    {
      strings, symbolsByName, symbolKeys, filesByName, fileKeys, extensions := [], map[], map[], map[], map[], map[];
      stringsBeforeCheckpoint, symbolsAfterCheckpoint, filesAfterCheckpoint, extensionsAfterCheckpoint := 0, [], [], [];
      pendingFiles, knownBadFiles := [], {};
      base := Snapshot([], map[], map[], map[]);
    }

    method Checkpoint()
      requires Valid()
      modifies this`stringsBeforeCheckpoint, this`symbolsAfterCheckpoint, this`filesAfterCheckpoint,
        this`extensionsAfterCheckpoint, this`base
      ensures Valid() && base == Current()
    {
      stringsBeforeCheckpoint := |strings|;
      symbolsAfterCheckpoint, filesAfterCheckpoint, extensionsAfterCheckpoint := [], [], [];
      base := Current();
    }

    method AllocateString(value: string) returns (key: nat)
      requires Valid()
      modifies this`strings
      ensures Valid() && strings == old(strings) + [value] && key == old(|strings|)
    {
      hide Owned, Logged, LoggedExtensions;
      Allocated(base.symbols, symbolsByName, symbolKeys, symbolsAfterCheckpoint, strings, stringsBeforeCheckpoint, value);
      Allocated(base.files, filesByName, fileKeys, filesAfterCheckpoint, strings, stringsBeforeCheckpoint, value);
      strings := strings + [value];
      key := |strings| - 1;
    }

    /** The key must be one of the pool's own strings. */
    method AddSymbol(key: nat, symbol: Symbol) returns (added: bool)
      requires Valid() && key < |strings|
      modifies this`symbolsByName, this`symbolKeys, this`symbolsAfterCheckpoint
      ensures Valid() && added == (strings[key] !in old(symbolsByName))
      ensures symbolsByName == if added then old(symbolsByName)[strings[key] := symbol] else old(symbolsByName)
    {
      hide Owned, Logged, LoggedExtensions;
      var fullName := strings[key];
      if fullName !in symbolsByName {
        Inserted(base.symbols, symbolsByName, symbolKeys, symbolsAfterCheckpoint, strings, stringsBeforeCheckpoint, key, symbol);
        symbolsByName := symbolsByName[fullName := symbol];
        symbolKeys := symbolKeys[fullName := key];
        symbolsAfterCheckpoint := symbolsAfterCheckpoint + [key];
        return true;
      } else {
        return false;
      }
    }

    method AddFile(key: nat, file: FileProto) returns (added: bool)
      requires Valid() && key < |strings|
      modifies this`filesByName, this`fileKeys, this`filesAfterCheckpoint
      ensures Valid() && added == (strings[key] !in old(filesByName))
      ensures filesByName == if added then old(filesByName)[strings[key] := file] else old(filesByName)
    {
      hide Owned, Logged, LoggedExtensions;
      var name := strings[key];
      if name !in filesByName {
        Inserted(base.files, filesByName, fileKeys, filesAfterCheckpoint, strings, stringsBeforeCheckpoint, key, file);
        filesByName := filesByName[name := file];
        fileKeys := fileKeys[name := key];
        filesAfterCheckpoint := filesAfterCheckpoint + [key];
        return true;
      } else {
        return false;
      }
    }

    method AddExtension(key: ExtensionKey, field: string) returns (added: bool)
      requires Valid()
      modifies this`extensions, this`extensionsAfterCheckpoint
      ensures Valid() && added == (key !in old(extensions))
      ensures extensions == if added then old(extensions)[key := field] else old(extensions)
    {
      hide Owned, Logged;
      if key !in extensions {
        extensions := extensions[key := field];
        extensionsAfterCheckpoint := extensionsAfterCheckpoint + [key];
        return true;
      } else {
        return false;
      }
    }

    method EraseSymbols()
      requires stringsBeforeCheckpoint <= |strings| && Owned(symbolsByName, symbolKeys, strings)
      requires Logged(base.symbols, symbolsByName, symbolKeys, symbolsAfterCheckpoint, strings, stringsBeforeCheckpoint)
      modifies this`symbolsByName, this`symbolKeys
      ensures symbolsByName == base.symbols && Owned(symbolsByName, symbolKeys, strings[..stringsBeforeCheckpoint])
      ensures Logged(base.symbols, symbolsByName, symbolKeys, [], strings[..stringsBeforeCheckpoint], stringsBeforeCheckpoint)
    {
      hide Owned, Logged;
      EraseRestores(base.symbols, symbolsByName, symbolKeys, symbolsAfterCheckpoint, strings, stringsBeforeCheckpoint);
      ghost var texts := Texts(symbolsAfterCheckpoint, strings);
      hide Without;
      NothingErased(symbolsByName, texts);
      NothingErased(symbolKeys, texts);
      hide Erased;
      var i := 0;
      while i < |symbolsAfterCheckpoint|
        invariant 0 <= i <= |symbolsAfterCheckpoint|
        invariant symbolsByName == Erased(old(symbolsByName), texts[..i])
        invariant symbolKeys == Erased(old(symbolKeys), texts[..i])
      {
        ErasedStep(old(symbolsByName), texts, i);
        ErasedStep(old(symbolKeys), texts, i);
        symbolsByName := Without(symbolsByName, strings[symbolsAfterCheckpoint[i]]);
        symbolKeys := Without(symbolKeys, strings[symbolsAfterCheckpoint[i]]);
        i := i + 1;
      }
      assert texts[..i] == texts;
    }

    method EraseFiles()
      requires stringsBeforeCheckpoint <= |strings| && Owned(filesByName, fileKeys, strings)
      requires Logged(base.files, filesByName, fileKeys, filesAfterCheckpoint, strings, stringsBeforeCheckpoint)
      modifies this`filesByName, this`fileKeys
      ensures filesByName == base.files && Owned(filesByName, fileKeys, strings[..stringsBeforeCheckpoint])
      ensures Logged(base.files, filesByName, fileKeys, [], strings[..stringsBeforeCheckpoint], stringsBeforeCheckpoint)
    {
      hide Owned, Logged;
      EraseRestores(base.files, filesByName, fileKeys, filesAfterCheckpoint, strings, stringsBeforeCheckpoint);
      ghost var texts := Texts(filesAfterCheckpoint, strings);
      hide Without;
      NothingErased(filesByName, texts);
      NothingErased(fileKeys, texts);
      hide Erased;
      var i := 0;
      while i < |filesAfterCheckpoint|
        invariant 0 <= i <= |filesAfterCheckpoint|
        invariant filesByName == Erased(old(filesByName), texts[..i])
        invariant fileKeys == Erased(old(fileKeys), texts[..i])
      {
        ErasedStep(old(filesByName), texts, i);
        ErasedStep(old(fileKeys), texts, i);
        filesByName := Without(filesByName, strings[filesAfterCheckpoint[i]]);
        fileKeys := Without(fileKeys, strings[filesAfterCheckpoint[i]]);
        i := i + 1;
      }
      assert texts[..i] == texts;
    }

    method EraseExtensions()
      requires LoggedExtensions(base.extensions, extensions, extensionsAfterCheckpoint)
      modifies this`extensions
      ensures extensions == base.extensions
    {
      hide LoggedExtensions;
      ghost var keys := extensionsAfterCheckpoint;
      EraseExtensionsRestores(base.extensions, extensions, keys);
      var i := 0;
      while i < |extensionsAfterCheckpoint|
        invariant 0 <= i <= |extensionsAfterCheckpoint|
        invariant extensions == Erased(old(extensions), keys[..i])
      {
        ErasedStep(old(extensions), keys, i);
        extensions := Without(extensions, extensionsAfterCheckpoint[i]);
        i := i + 1;
      }
      assert keys[..i] == keys;
    }

    /** Everything is as at the last checkpoint, and every key still points to a string the pool owns. */
    method Rollback()
      requires Valid()
      modifies this
      ensures Valid() && Current() == old(base) && base == old(base)
      ensures pendingFiles == old(pendingFiles) && knownBadFiles == old(knownBadFiles)
    {
      hide Owned, Logged, LoggedExtensions;
      EraseSymbols();
      EraseFiles();
      EraseExtensions();
      symbolsAfterCheckpoint, filesAfterCheckpoint, extensionsAfterCheckpoint := [], [], [];
      strings := strings[..stringsBeforeCheckpoint];
      NothingLogged(base.extensions);
    }
  }
}
