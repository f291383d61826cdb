/**
 * The installer's user interface logic: choosing the display language from
 * the browser's language tag, looking up translated strings with English and
 * the key itself as fallbacks, filling the `{0}`, `{1}`, ... placeholders,
 * and moving the `active` marker along the wizard's steps and screens.
 */
module InstallerUi {
  import opened Wrappers
  import opened Decimal
  import opened Substrings

  /* The translation table: one dictionary per supported language. */

  const Spanish: map<string, string> := map[
    "step_welcome" := "Bienvenido",
    "step_install" := "Instalación",
    "step_finish" := "Finalizar",
    "title_welcome" := "Instalar Battly Launcher",
    "desc_welcome" := "Bienvenido al asistente de instalación de Battly Launcher para Hytale. Este programa instalará la última versión en tu sistema.",
    "btn_install" := "Instalar",
    "title_installing" := "Instalando...",
    "status_init" := "Preparando...",
    "title_finished" := "¡Instalación Completada!",
    "desc_finished" := "Battly Launcher se ha instalado correctamente en tu ordenador.",
    "btn_launch" := "Jugar Ahora",
    "status_cleaning" := "Limpiando instalación anterior...",
    "status_downloading_start" := "Descargando Battly Launcher...",
    "status_downloading_percent" := "Descargando... {0}%",
    "status_extracting" := "Extrayendo archivos...",
    "status_installing" := "Instalando...",
    "status_shortcuts" := "Creando accesos directos..."
  ]

  const English: map<string, string> := map[
    "step_welcome" := "Welcome",
    "step_install" := "Installation",
    "step_finish" := "Finish",
    "title_welcome" := "Install Battly Launcher",
    "desc_welcome" := "Welcome to the Battly Launcher setup wizard for Hytale. This program will install the latest version on your system.",
    "btn_install" := "Install",
    "title_installing" := "Installing...",
    "status_init" := "Preparing...",
    "title_finished" := "Installation Complete!",
    "desc_finished" := "Battly Launcher has been successfully installed on your computer.",
    "btn_launch" := "Play Now",
    "status_cleaning" := "Cleaning previous installation...",
    "status_downloading_start" := "Downloading Battly Launcher...",
    "status_downloading_percent" := "Downloading... {0}%",
    "status_extracting" := "Extracting files...",
    "status_installing" := "Installing...",
    "status_shortcuts" := "Creating shortcuts..."
  ]

  const German: map<string, string> := map[
    "step_welcome" := "Willkommen",
    "step_install" := "Installation",
    "step_finish" := "Fertigstellen",
    "title_welcome" := "Battly Launcher installieren",
    "desc_welcome" := "Willkommen beim Installationsassistenten für den Battly Launcher. Dieses Programm installiert die neueste Version auf Ihrem System.",
    "btn_install" := "Installieren",
    "title_installing" := "Installiere...",
    "status_init" := "Vorbereitung...",
    "title_finished" := "Installation abgeschlossen!",
    "desc_finished" := "Battly Launcher wurde erfolgreich auf Ihrem Computer installiert.",
    "btn_launch" := "Jetzt spielen",
    "status_cleaning" := "Bereinige vorherige Installation...",
    "status_downloading_start" := "Lade Battly Launcher herunter...",
    "status_downloading_percent" := "Herunterladen... {0}%",
    "status_extracting" := "Entpacke Dateien...",
    "status_installing" := "Installiere...",
    "status_shortcuts" := "Erstelle Verknüpfungen..."
  ]

  const French: map<string, string> := map[
    "step_welcome" := "Bienvenue",
    "step_install" := "Installation",
    "step_finish" := "Terminer",
    "title_welcome" := "Installer Battly Launcher",
    "desc_welcome" := "Bienvenue dans l'assistant d'installation de Battly Launcher. Ce programme installera la dernière version sur votre système.",
    "btn_install" := "Installer",
    "title_installing" := "Installation...",
    "status_init" := "Préparation...",
    "title_finished" := "Installation terminée !",
    "desc_finished" := "Battly Launcher a été installé avec succès sur votre ordinateur.",
    "btn_launch" := "Jouer maintenant",
    "status_cleaning" := "Nettoyage de l'installation précédente...",
    "status_downloading_start" := "Téléchargement de Battly Launcher...",
    "status_downloading_percent" := "Téléchargement... {0}%",
    "status_extracting" := "Extraction des fichiers...",
    "status_installing" := "Installation...",
    "status_shortcuts" := "Création des raccourcis..."
  ]

  const Portuguese: map<string, string> := map[
    "step_welcome" := "Bem-vindo",
    "step_install" := "Instalação",
    "step_finish" := "Concluir",
    "title_welcome" := "Instalar Battly Launcher",
    "desc_welcome" := "Bem-vindo ao assistente de instalação do Battly Launcher. Este programa instalará a versão mais recente no seu sistema.",
    "btn_install" := "Instalar",
    "title_installing" := "Instalando...",
    "status_init" := "Preparando...",
    "title_finished" := "Instalação Concluída!",
    "desc_finished" := "Battly Launcher foi instalado com sucesso no seu computador.",
    "btn_launch" := "Jogar Agora",
    "status_cleaning" := "Limpando instalação anterior...",
    "status_downloading_start" := "Baixando Battly Launcher...",
    "status_downloading_percent" := "Baixando... {0}%",
    "status_extracting" := "Extraindo arquivos...",
    "status_installing" := "Instalando...",
    "status_shortcuts" := "Criando atalhos..."
  ]

  const Russian: map<string, string> := map[
    "step_welcome" := "Добро пожаловать",
    "step_install" := "Установка",
    "step_finish" := "Завершение",
    "title_welcome" := "Установить Battly Launcher",
    "desc_welcome" := "Добро пожаловать в мастер установки Battly Launcher. Эта программа установит последнюю версию на ваш компьютер.",
    "btn_install" := "Установить",
    "title_installing" := "Установка...",
    "status_init" := "Подготовка...",
    "title_finished" := "Установка завершена!",
    "desc_finished" := "Battly Launcher успешно установлен на ваш компьютер.",
    "btn_launch" := "Играть сейчас",
    "status_cleaning" := "Очистка предыдущей установки...",
    "status_downloading_start" := "Загрузка Battly Launcher...",
    "status_downloading_percent" := "Загрузка... {0}%",
    "status_extracting" := "Извлечение файлов...",
    "status_installing" := "Установка...",
    "status_shortcuts" := "Создание ярлыков..."
  ]

  const Chinese: map<string, string> := map[
    "step_welcome" := "欢迎",
    "step_install" := "安装",
    "step_finish" := "完成",
    "title_welcome" := "安装 Battly Launcher",
    "desc_welcome" := "欢迎使用 Battly Launcher 安装向导。该程序将在您的系统上安装最新版本。",
    "btn_install" := "安装",
    "title_installing" := "正在安装...",
    "status_init" := "准备中...",
    "title_finished" := "安装完成！",
    "desc_finished" := "Battly Launcher 已成功安装在您的电脑上。",
    "btn_launch" := "立即开始",
    "status_cleaning" := "正在清理旧版本...",
    "status_downloading_start" := "正在下载 Battly Launcher...",
    "status_downloading_percent" := "下载中... {0}%",
    "status_extracting" := "正在解压文件...",
    "status_installing" := "正在安装...",
    "status_shortcuts" := "正在创建快捷方式..."
  ]

  const Japanese: map<string, string> := map[
    "step_welcome" := "ようこそ",
    "step_install" := "インストール",
    "step_finish" := "完了",
    "title_welcome" := "Battly Launcher のインストール",
    "desc_welcome" := "Battly Launcher インストールウィザードへようこそ。このプログラムはシステムに最新バージョンをインストールします。",
    "btn_install" := "インストール",
    "title_installing" := "インストール中...",
    "status_init" := "準備中...",
    "title_finished" := "インストール完了！",
    "desc_finished" := "Battly Launcher が正常にインストールされました。",
    "btn_launch" := "今すぐプレイ",
    "status_cleaning" := "以前のインストールを削除中...",
    "status_downloading_start" := "Battly Launcher をダウンロード中...",
    "status_downloading_percent" := "ダウンロード中... {0}%",
    "status_extracting" := "ファイルを展開中...",
    "status_installing" := "インストール中...",
    "status_shortcuts" := "ショートカットを作成中..."
  ]

  /** The languages the table translates into. */
  const SupportedLanguages: seq<string> := ["es", "en", "de", "fr", "pt", "ru", "zh", "ja"]

  /** `translations[lang]`: the dictionary of a supported language. */
  function Translations(lang: string): (d: Option<map<string, string>>)
    ensures d.Some? <==> lang in SupportedLanguages
  {
    match lang
    case "es" => Some(Spanish)
    case "en" => Some(English)
    case "de" => Some(German)
    case "fr" => Some(French)
    case "pt" => Some(Portuguese)
    case "ru" => Some(Russian)
    case "zh" => Some(Chinese)
    case "ja" => Some(Japanese)
    case _ => None
  }

  /** A dictionary that translates every English key, none of them to the empty string. */
  predicate Complete(d: map<string, string>)
  {
    d.Keys == English.Keys && forall k :: k in d ==> d[k] != ""
  }

  lemma SpanishComplete()
    ensures Complete(Spanish)
  {
  }

  lemma EnglishComplete()
    ensures Complete(English)
  {
  }

  lemma GermanComplete()
    ensures Complete(German)
  {
  }

  lemma FrenchComplete()
    ensures Complete(French)
  {
  }

  lemma PortugueseComplete()
    ensures Complete(Portuguese)
  {
  }

  lemma RussianComplete()
    ensures Complete(Russian)
  {
  }

  lemma ChineseComplete()
    ensures Complete(Chinese)
  {
  }

  lemma JapaneseComplete()
    ensures Complete(Japanese)
  {
  }

  lemma DictionaryComplete(l: string)
    requires Translations(l).Some?
    ensures Complete(Translations(l).value)
  {
    match l
    case "es" => SpanishComplete();
    case "en" => EnglishComplete();
    case "de" => GermanComplete();
    case "fr" => FrenchComplete();
    case "pt" => PortugueseComplete();
    case "ru" => RussianComplete();
    case "zh" => ChineseComplete();
    case "ja" => JapaneseComplete();
    case _ =>
  }

  /** The English dictionary is what `t` falls back to. */
  const DefaultLanguage := "en"

  /** `lang.split('-')[0]`: the language tag up to its first `-`. */
  function PrimarySubtag(tag: string): (p: string)
    ensures |p| <= |tag| && p == tag[..|p|]
    ensures '-' !in p
    ensures |p| == |tag| || tag[|p|] == '-'
  {
    if tag == [] || tag[0] == '-' then []
    else
      var rest := PrimarySubtag(tag[1..]);
      assert [tag[0]] + rest == tag[..|rest| + 1];
      [tag[0]] + rest
  }

  /**
   * `detectLanguage`: the tag is `navigator.language`, or
   * `navigator.userLanguage` when that is empty; `None` stands for the
   * `TypeError` thrown when neither is set. The result is the tag's primary
   * subtag when that language is supported, and English otherwise.
   */
  function DetectLanguage(language: string, userLanguage: Option<string>): (r: Option<string>)
    ensures r.None? <==> language == "" && userLanguage.None?
    ensures r.Some? ==> Translations(r.value).Some?
    ensures r.Some? ==>
      var tag := if language != "" then language else userLanguage.value;
      && (Translations(PrimarySubtag(tag)).Some? ==> r.value == PrimarySubtag(tag))
      && (Translations(PrimarySubtag(tag)).None? ==> r.value == DefaultLanguage)
  {
    var tag := if language != "" then Some(language) else userLanguage;
    match tag
    case None => None
    case Some(t) =>
      var short := PrimarySubtag(t);
      if Translations(short).Some? then Some(short) else Some(DefaultLanguage)
  }

  /** A regional tag selects its language; an unsupported one selects English. */
  lemma DetectLanguageExamples()
    ensures DetectLanguage("es-MX", None) == Some("es")
    ensures DetectLanguage("en-US", None) == Some("en")
    ensures DetectLanguage("it-IT", None) == Some("en")
    ensures DetectLanguage("", Some("pt-BR")) == Some("pt")
    ensures DetectLanguage("", None) == None
  {
    assert PrimarySubtag("es-MX") == "es";
    assert PrimarySubtag("en-US") == "en";
    assert PrimarySubtag("it-IT") == "it";
    assert PrimarySubtag("pt-BR") == "pt";
  }

  /** `translations[currentLang] || translations['en']` */
  function Dictionary(lang: string): (d: map<string, string>)
    ensures Complete(d)
    ensures Translations(lang).Some? ==> d == Translations(lang).value
    ensures Translations(lang).None? ==> d == English
  {
    match Translations(lang)
    case Some(d) =>
      DictionaryComplete(lang);
      d
    case None =>
      EnglishComplete();
      English
  }

  /** `obj[key]` read for its truthiness: present and not the empty string. */
  function Entry(d: map<string, string>, key: string): (r: Option<string>)
    ensures r.Some? <==> key in d && d[key] != ""
    ensures r.Some? ==> r.value == d[key]
  {
    if key in d && d[key] != "" then Some(d[key]) else None
  }

  /**
   * The untranslated text of `t(key)`: `dict[key] || translations['en'][key]
   * || key`. The English fallback never fires, since every dictionary has
   * every key; an unknown key is shown as itself.
   */
  function Lookup(lang: string, key: string): (text: string)
    ensures key in English ==> text == Dictionary(lang)[key]
    ensures key !in English ==> text == key
    ensures Translations(lang).Some? && key in English ==> text == Translations(lang).value[key]
    ensures key != "" ==> text != ""
  {
    match Entry(Dictionary(lang), key)
    case Some(s) => s
    case None =>
      match Entry(English, key)
      case Some(s) => s
      case None => key
  }

  /**
   * The replacement text of `String.prototype.replace` with a string pattern:
   * `$$` stands for `$`, `$&` for the matched text, `` $` `` for the text
   * before the match and `$'` for the text after it; any other `$` is kept.
   */
  function Expand(replacement: string, matched: string, before: string, after: string): (r: string)
    ensures '$' !in replacement ==> r == replacement
    decreases |replacement|
  {
    if replacement == [] then []
    else if replacement[0] == '$' && |replacement| >= 2 then
      var rest := Expand(replacement[2..], matched, before, after);
      match replacement[1]
      case '$' => "$" + rest
      case '&' => matched + rest
      case '`' => before + rest
      case '\'' => after + rest
      case _ => "$" + Expand(replacement[1..], matched, before, after)
    else
      assert '$' !in replacement ==> '$' !in replacement[1..] by {
        assert forall c :: c in replacement[1..] ==> c in replacement;
      }
      [replacement[0]] + Expand(replacement[1..], matched, before, after)
  }

  /** Each special pattern expands to what it stands for. */
  lemma ExpandExamples(m: string, b: string, a: string)
    ensures Expand("$$", m, b, a) == "$"
    ensures Expand("$&", m, b, a) == m
    ensures Expand("$`", m, b, a) == b
    ensures Expand("$'", m, b, a) == a
    ensures Expand("$1", m, b, a) == "$1"
  {
    assert Expand("1", m, b, a) == "1";
  }

  /**
   * `text.replace(pattern, replacement)`: the first occurrence of `pattern`
   * is replaced by the expanded replacement; without one, `text` is returned
   * unchanged.
   */
  function ReplaceFirst(text: string, pattern: string, replacement: string): (r: string)
    ensures (forall j: nat :: !OccursAt(pattern, text, j)) ==> r == text
    ensures forall i: nat :: FirstOccurrence(pattern, text, i) ==>
      r == text[..i] + Expand(replacement, pattern, text[..i], text[i + |pattern|..]) + text[i + |pattern|..]
  {
    match IndexOf(text, pattern, 0)
    case None => text
    case Some(i) =>
      assert forall j: nat :: FirstOccurrence(pattern, text, j) ==> j == i by {
        forall j: nat | FirstOccurrence(pattern, text, j)
          ensures j == i
        {
          FirstOccurrenceUnique(pattern, text, i, j);
        }
      }
      text[..i] + Expand(replacement, pattern, text[..i], text[i + |pattern|..]) + text[i + |pattern|..]
  }

  /** `pattern` occurs in `text` at `i` and nowhere before. */
  predicate FirstOccurrence(pattern: string, text: string, i: nat)
  {
    OccursAt(pattern, text, i) && forall j :: 0 <= j < i ==> !OccursAt(pattern, text, j)
  }

  lemma FirstOccurrenceUnique(pattern: string, text: string, i: nat, j: nat)
    requires FirstOccurrence(pattern, text, i) && FirstOccurrence(pattern, text, j)
    ensures i == j
  {
  }

  /** The placeholder `{i}` of the `i`-th argument. */
  function Placeholder(i: nat): (p: string)
    ensures |p| >= 3 && p[0] == '{' && p[|p| - 1] == '}'
  {
    "{" + NatToDecimal(i) + "}"
  }

  /**
   * The placeholder substitution of `t`: for each argument from `from` on, in
   * order, the first `{i}` of the text so far is replaced by argument `i`.
   */
  function ApplyArgs(text: string, args: seq<string>, from: nat): (r: string)
    requires from <= |args|
    ensures from == |args| ==> r == text
    ensures '{' !in text ==> r == text
    decreases |args| - from
  {
    if from == |args| then text
    else
      var next := ReplaceFirst(text, Placeholder(from), args[from]);
      assert '{' !in text ==> next == text by {
        if '{' !in text {
          NoBraceNoPlaceholder(text, from);
        }
      }
      ApplyArgs(next, args, from + 1)
  }

  /** Arguments whose placeholders do not occur in the text leave it unchanged. */
  lemma {:induction false} ApplyArgsWithoutPlaceholders(text: string, args: seq<string>, from: nat)
    requires from <= |args|
    requires forall i, j: nat :: from <= i < |args| ==> !OccursAt(Placeholder(i), text, j)
    ensures ApplyArgs(text, args, from) == text
    decreases |args| - from
  {
    if from < |args| {
      assert forall j: nat :: !OccursAt(Placeholder(from), text, j);
      assert ReplaceFirst(text, Placeholder(from), args[from]) == text;
      ApplyArgsWithoutPlaceholders(text, args, from + 1);
    }
  }

  /** Text without `{` holds no placeholder. */
  lemma NoBraceNoPlaceholder(text: string, i: nat)
    requires '{' !in text
    ensures forall j: nat :: !OccursAt(Placeholder(i), text, j)
  {
    var p := Placeholder(i);
    forall j: nat
      ensures !OccursAt(p, text, j)
    {
      if j + |p| <= |text| {
        assert text[j] in text;
        assert text[j..j + |p|][0] == text[j];
      }
    }
  }

  /**
   * A single argument fills the first `{0}`: the text before it must not hold
   * an earlier `{0}`, and the argument must not hold a `$` pattern.
   */
  lemma FillsFirstPlaceholder(text: string, before: string, after: string, arg: string)
    requires text == before + "{0}" + after
    requires '{' !in before && '$' !in arg
    ensures ApplyArgs(text, [arg], 0) == before + arg + after
  {
    assert Placeholder(0) == "{0}";
    var i := |before|;
    assert OccursAt("{0}", text, i) by {
      assert text[i..i + 3] == "{0}";
    }
    forall j | 0 <= j < i
      ensures !OccursAt("{0}", text, j)
    {
      assert text[j] == before[j];
    }
    assert text[..i] == before;
    assert text[i + 3..] == after;
    assert ReplaceFirst(text, "{0}", arg) == before + arg + after;
  }

  /** Download progress in Spanish. */
  lemma DownloadPercentInSpanish(text: string)
    requires text == Lookup("es", "status_downloading_percent")
    ensures ApplyArgs(text, ["42"], 0) == "Descargando... " + "42" + "%"
  {
    SpanishPercentText();
    FillsFirstPlaceholder(text, "Descargando... ", "%", "42");
  }

  lemma SpanishPercentText()
    ensures Lookup("es", "status_downloading_percent") == "Descargando... " + "{0}" + "%"
  {
    assert Translations("es") == Some(Spanish);
    assert Spanish["status_downloading_percent"] == "Descargando... {0}%";
  }

  /** The wizard's step markers in the side bar. */
  datatype Step = WelcomeStep | InstallStep | FinishStep

  /** The wizard's screens. */
  datatype Screen = WelcomeScreen | ProgressScreen | FinishScreen

  /** `from.classList.remove('active'); to.classList.add('active')` over the set of active elements. */
  function MoveActive<T(==, !new)>(active: set<T>, from: T, to: T): (r: set<T>)
    ensures to in r
    ensures from != to ==> from !in r
    ensures forall x :: x != from && x != to ==> (x in r <==> x in active)
  {
    active - {from} + {to}
  }

  /** The active steps after `goToStep(stepIndex)`. */
  function StepsAfter(stepIndex: int, steps: set<Step>): (r: set<Step>)
  {
    if stepIndex == 2 then MoveActive(steps, WelcomeStep, InstallStep)
    else if stepIndex == 3 then MoveActive(steps, InstallStep, FinishStep)
    else steps
  }

  /** The active screens after `goToStep(stepIndex)`. */
  function ScreensAfter(stepIndex: int, screens: set<Screen>): (r: set<Screen>)
  {
    if stepIndex == 2 then MoveActive(screens, WelcomeScreen, ProgressScreen)
    else if stepIndex == 3 then MoveActive(screens, ProgressScreen, FinishScreen)
    else screens
  }

  /**
   * Starting on the welcome step and screen, `goToStep(2)` shows exactly the
   * install step and the progress screen, and `goToStep(3)` then shows exactly
   * the finish step and screen.
   */
  lemma WizardAdvances()
    ensures StepsAfter(2, {WelcomeStep}) == {InstallStep}
    ensures ScreensAfter(2, {WelcomeScreen}) == {ProgressScreen}
    ensures StepsAfter(3, {InstallStep}) == {FinishStep}
    ensures ScreensAfter(3, {ProgressScreen}) == {FinishScreen}
  {
  }

  /** Going to the same step twice is the same as going once. */
  lemma GoToStepIdempotent(stepIndex: int, steps: set<Step>, screens: set<Screen>)
    ensures StepsAfter(stepIndex, StepsAfter(stepIndex, steps)) == StepsAfter(stepIndex, steps)
    ensures ScreensAfter(stepIndex, ScreensAfter(stepIndex, screens)) == ScreensAfter(stepIndex, screens)
  {
  }

  /** The translated element texts `initLocales` writes: element id and key. */
  const LabelKeys: seq<(string, string)> := [
    ("step-welcome-text", "step_welcome"),
    ("step-install-text", "step_install"),
    ("step-finish-text", "step_finish"),
    ("title-welcome", "title_welcome"),
    ("desc-welcome", "desc_welcome"),
    ("btn-install", "btn_install"),
    ("title-installing", "title_installing"),
    ("status-text", "status_init"),
    ("title-finished", "title_finished"),
    ("desc-finished", "desc_finished"),
    ("btn-launch", "btn_launch")
  ]

  /** The element texts written for `entries`, in order, skipping elements not in `present`. */
  function Labels(lang: string, present: set<string>, entries: seq<(string, string)>): (m: map<string, string>)
    ensures forall id :: id in m ==> id in present
  {
    if entries == [] then map[]
    else
      var m := Labels(lang, present, entries[..|entries| - 1]);
      var (id, key) := entries[|entries| - 1];
      if id in present then m[id := Lookup(lang, key)] else m
  }

  /** One more entry adds at most the text of its element. */
  lemma LabelsStep(lang: string, present: set<string>, entries: seq<(string, string)>, i: nat)
    requires i < |entries|
    ensures Labels(lang, present, entries[..i + 1]) ==
      if entries[i].0 in present
      then Labels(lang, present, entries[..i])[entries[i].0 := Lookup(lang, entries[i].1)]
      else Labels(lang, present, entries[..i])
  {
    assert entries[..i + 1][..i] == entries[..i];
  }

  /** Exactly the present listed elements get a text. */
  lemma {:induction false} LabelsDomain(lang: string, present: set<string>, entries: seq<(string, string)>)
    ensures forall id :: id in Labels(lang, present, entries) <==>
      id in present && exists i :: 0 <= i < |entries| && entries[i].0 == id
    decreases |entries|
  {
    if entries != [] {
      var init := entries[..|entries| - 1];
      var last := entries[|entries| - 1].0;
      LabelsDomain(lang, present, init);
      var m := Labels(lang, present, entries);
      forall id | id != last
        ensures id in m <==> id in present && exists i :: 0 <= i < |entries| && entries[i].0 == id
      {
        if id in present && exists i :: 0 <= i < |entries| && entries[i].0 == id {
          var i :| 0 <= i < |entries| && entries[i].0 == id;
          assert init[i].0 == id;
        }
        if id in m {
          var i :| 0 <= i < |init| && init[i].0 == id;
          assert entries[i].0 == id;
        }
      }
    }
  }

  /** With distinct element ids, each present listed element gets its key's text. */
  lemma {:induction false} LabelsValues(lang: string, present: set<string>, entries: seq<(string, string)>)
    requires forall i, j :: 0 <= i < j < |entries| ==> entries[i].0 != entries[j].0
    ensures forall i :: 0 <= i < |entries| && entries[i].0 in present ==>
      entries[i].0 in Labels(lang, present, entries) &&
      Labels(lang, present, entries)[entries[i].0] == Lookup(lang, entries[i].1)
    decreases |entries|
  {
    if entries != [] {
      var init := entries[..|entries| - 1];
      LabelsValues(lang, present, init);
      forall i | 0 <= i < |entries| - 1 && entries[i].0 in present
        ensures entries[i].0 in Labels(lang, present, entries)
        ensures Labels(lang, present, entries)[entries[i].0] == Lookup(lang, entries[i].1)
      {
        assert init[i] == entries[i];
      }
    }
  }

  /** Each element appears once in `LabelKeys`. */
  lemma LabelIdsDistinct()
    ensures forall i, j :: 0 <= i < j < |LabelKeys| ==> LabelKeys[i].0 != LabelKeys[j].0
  {
  }

  /**
   * The installer page: the chosen language, which steps and screens are
   * marked active, and whether the script stopped at an uncaught error.
   */
  class InstallerPage {
    var currentLang: string
    var activeSteps: set<Step>
    var activeScreens: set<Screen>
    /** An error escaped the top-level `initLocales()` call, so the statements after it never ran. */
    var aborted: bool

    /** The page as loaded: English until the locale is detected, with the document's initial markers. */
    constructor (steps: set<Step>, screens: set<Screen>)
      ensures currentLang == DefaultLanguage
      ensures activeSteps == steps && activeScreens == screens
      ensures !aborted
    {
      currentLang := DefaultLanguage;
      activeSteps := steps;
      activeScreens := screens;
      aborted := false;
    }

    /** `t(key, ...args)` in the current language. */
    method T(key: string, args: seq<string>) returns (text: string)
      ensures text == ApplyArgs(Lookup(currentLang, key), args, 0)
    {
      text := Lookup(currentLang, key);
      for i := 0 to |args|
        invariant ApplyArgs(text, args, i) == ApplyArgs(Lookup(currentLang, key), args, 0)
      {
        text := ReplaceFirst(text, Placeholder(i), args[i]);
      }
    }

    /**
     * `initLocales`: detect the language, then write the translated text of
     * every listed element that exists in the document (`present`). When no
     * language tag is set, detection throws a `TypeError` (`thrown`) before
     * any label is written; the error escapes the top-level call and the
     * script stops there (`aborted`), so no event listener is attached.
     */
    method InitLocales(language: string, userLanguage: Option<string>, present: set<string>)
      returns (labels: map<string, string>, thrown: bool)
      modifies this
      ensures activeSteps == old(activeSteps) && activeScreens == old(activeScreens)
      ensures thrown <==> DetectLanguage(language, userLanguage).None?
      ensures aborted == (old(aborted) || thrown)
      ensures thrown ==> currentLang == old(currentLang) && labels == map[]
      ensures !thrown ==>
        && currentLang == DetectLanguage(language, userLanguage).value
        && labels == Labels(currentLang, present, LabelKeys)
        && (forall id :: id in labels <==> id in present && exists i :: 0 <= i < |LabelKeys| && LabelKeys[i].0 == id)
        && forall i :: 0 <= i < |LabelKeys| && LabelKeys[i].0 in present ==>
             labels[LabelKeys[i].0] == Lookup(currentLang, LabelKeys[i].1)
    {
      labels, thrown := map[], false;
      var detected := DetectLanguage(language, userLanguage);
      if detected.None? {
        thrown := true;
        aborted := true;
        return;
      }
      currentLang := detected.value;
      for i := 0 to |LabelKeys|
        invariant currentLang == detected.value && aborted == old(aborted)
        invariant activeSteps == old(activeSteps) && activeScreens == old(activeScreens)
        invariant labels == Labels(currentLang, present, LabelKeys[..i])
      {
        var (id, key) := LabelKeys[i];
        LabelsStep(currentLang, present, LabelKeys, i);
        if id in present {
          var text := T(key, []);
          labels := labels[id := text];
        }
      }
      assert LabelKeys[..|LabelKeys|] == LabelKeys;
      LabelIdsDistinct();
      LabelsDomain(currentLang, present, LabelKeys);
      LabelsValues(currentLang, present, LabelKeys);
    }

    /** `goToStep(stepIndex)`: move the `active` marker along the wizard. */
    method GoToStep(stepIndex: int)
      modifies this
      ensures currentLang == old(currentLang) && aborted == old(aborted)
      ensures activeSteps == StepsAfter(stepIndex, old(activeSteps))
      ensures activeScreens == ScreensAfter(stepIndex, old(activeScreens))
    {
      if stepIndex == 2 {
        activeSteps := activeSteps - {WelcomeStep};
        activeSteps := activeSteps + {InstallStep};
        activeScreens := activeScreens - {WelcomeScreen};
        activeScreens := activeScreens + {ProgressScreen};
      } else if stepIndex == 3 {
        activeSteps := activeSteps - {InstallStep};
        activeSteps := activeSteps + {FinishStep};
        activeScreens := activeScreens - {ProgressScreen};
        activeScreens := activeScreens + {FinishScreen};
      }
    }
  }
}
