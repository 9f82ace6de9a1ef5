/** The frontend playground page: three buffers (HTML, CSS, JavaScript), the active
    tab, and the theme, with the copy, reset, download and export handlers. Clipboard,
    file and archive I/O are left out; the model keeps the text and file names they
    receive. */
module Playground {
  import opened Wrappers
  import Theme

  datatype Tab = Html | Css | Js

  datatype Playground = Playground(html: string, css: string, js: string, active: Tab, theme: string)

  /** A file handed to the browser: its name and its content. */
  datatype File = File(name: string, content: string)

  /** The name of the archive `handleDownloadAll` offers. */
  const ArchiveName: string := "web-project.zip"

  const InitialHtml: string :=
    "<!DOCTYPE html>\n" +
    "<html>\n" +
    "<head>\n" +
    "  <title>My Web Page</title>\n" +
    "</head>\n" +
    "<body>\n" +
    "  <h1>Hello, World!</h1>\n" +
    "  <p>Welcome to my interactive web page.</p>\n" +
    "  <button id=\"changeColor\">Change Color</button>\n" +
    "</body>\n" +
    "</html>"

  const InitialCss: string :=
    "body {\n" +
    "  font-family: Arial, sans-serif;\n" +
    "  background-color: #f0f0f0;\n" +
    "  margin: 20px;\n" +
    "  padding: 0;\n" +
    "}\n" +
    "\n" +
    "h1 {\n" +
    "  color: #333;\n" +
    "  text-align: center;\n" +
    "}\n" +
    "\n" +
    "p {\n" +
    "  color: #666;\n" +
    "  line-height: 1.6;\n" +
    "}\n" +
    "\n" +
    "button {\n" +
    "  background-color: #4CAF50;\n" +
    "  color: white;\n" +
    "  padding: 10px 15px;\n" +
    "  border: none;\n" +
    "  border-radius: 4px;\n" +
    "  cursor: pointer;\n" +
    "  display: block;\n" +
    "  margin: 20px auto;\n" +
    "}\n" +
    "\n" +
    "button:hover {\n" +
    "  background-color: #45a049;\n" +
    "}"

  const InitialJs: string :=
    "document.addEventListener('DOMContentLoaded', function() {\n" +
    "  const button = document.getElementById('changeColor');\n" +
    "  \n" +
    "  if (button) {\n" +
    "    button.addEventListener('click', function() {\n" +
    "      const randomColor = '#' + Math.floor(Math.random()*16777215).toString(16);\n" +
    "      document.body.style.backgroundColor = randomColor;\n" +
    "    });\n" +
    "  }\n" +
    "});"

  /** The text each buffer starts with and is reset to. */
  function InitialText(tab: Tab): string
  {
    match tab
    case Html => InitialHtml
    case Css => InitialCss
    case Js => InitialJs
  }

  /** The file name each tab's buffer is downloaded under. */
  function FileName(tab: Tab): string
  {
    match tab
    case Html => "index.html"
    case Css => "styles.css"
    case Js => "script.js"
  }

  /** The buffer a tab shows. */
  function Buffer(p: Playground, tab: Tab): string
  {
    match tab
    case Html => p.html
    case Css => p.css
    case Js => p.js
  }

  /** Replaces one buffer. */
  function WithBuffer(p: Playground, tab: Tab, text: string): (r: Playground)
    ensures Buffer(r, tab) == text
    ensures forall t :: t != tab ==> Buffer(r, t) == Buffer(p, t)
    ensures r.active == p.active && r.theme == p.theme
  {
    match tab
    case Html => p.(html := text)
    case Css => p.(css := text)
    case Js => p.(js := text)
  }

  /** The page as first rendered: the starter buffers, the HTML tab, the dark theme. */
  const Initial: Playground := Playground(InitialHtml, InitialCss, InitialJs, Html, Theme.Dark)

  /** `handleCopyCode`: the text put on the clipboard. */
  function Copy(p: Playground): (text: string)
    ensures text == Buffer(p, p.active)
  {
    match p.active
    case Html => p.html
    case Css => p.css
    case Js => p.js
  }

  /** `handleResetCode`: the active buffer goes back to its starter text. */
  function Reset(p: Playground): (r: Playground)
    ensures Buffer(r, p.active) == InitialText(p.active)
    ensures forall t :: t != p.active ==> Buffer(r, t) == Buffer(p, t)
    ensures r.active == p.active && r.theme == p.theme
  {
    match p.active
    case Html => p.(html := InitialHtml)
    case Css => p.(css := InitialCss)
    case Js => p.(js := InitialJs)
  }

  /** `handleDownloadCode`: the active buffer under its tab's file name. */
  function Download(p: Playground): (f: File)
    ensures f == File(FileName(p.active), Buffer(p, p.active))
  {
    match p.active
    case Html => File("index.html", p.html)
    case Css => File("styles.css", p.css)
    case Js => File("script.js", p.js)
  }

  /** `handleDownloadAll`: the entries put in the archive. */
  function DownloadAll(p: Playground): (files: seq<File>)
    ensures |files| == 3
    ensures forall i, j :: 0 <= i < j < 3 ==> files[i].name != files[j].name
    ensures forall t :: File(FileName(t), Buffer(p, t)) in files
  {
    [File("index.html", p.html), File("styles.css", p.css), File("script.js", p.js)]
  }

  /** The editor's `onChange` for the visible buffer: `value || ''`. */
  function Edit(p: Playground, value: Option<string>): (r: Playground)
    ensures r == WithBuffer(p, p.active, value.GetOr(""))
  {
    match p.active
    case Html => p.(html := value.GetOr(""))
    case Css => p.(css := value.GetOr(""))
    case Js => p.(js := value.GetOr(""))
  }

  /** A tab button. */
  function SwitchTab(p: Playground, tab: Tab): (r: Playground)
    ensures r.active == tab && r.theme == p.theme
    ensures forall t :: Buffer(r, t) == Buffer(p, t)
  {
    p.(active := tab)
  }

  /** The theme button: the theme flips between the two, and the buffers and the
      active tab stay as they are. */
  function ToggleTheme(p: Playground): (r: Playground)
    ensures r.theme == Theme.Dark || r.theme == Theme.Light
    ensures r.theme == Theme.Light <==> p.theme == Theme.Dark
    ensures r.active == p.active && forall t :: Buffer(r, t) == Buffer(p, t)
  {
    p.(theme := Theme.Toggle(p.theme))
  }

  /** Two theme clicks give back the playground exactly. */
  lemma ToggleThemeTwice(p: Playground)
    requires p.theme == Theme.Dark || p.theme == Theme.Light
    ensures ToggleTheme(ToggleTheme(p)) == p
  {
    Theme.ToggleTwice(p.theme);
  }

  /** Reset undoes any edit of the active buffer. */
  lemma ResetUndoesEdit(p: Playground, value: Option<string>)
    ensures Reset(Edit(p, value)) == Reset(p)
  {
  }

  /** From the first render, resetting any tab changes nothing. */
  lemma ResetInitial(tab: Tab)
    ensures Reset(SwitchTab(Initial, tab)) == SwitchTab(Initial, tab)
  {
  }

  /** Exporting everything gives the same files as downloading each tab in turn. */
  lemma ExportMatchesDownloads(p: Playground)
    ensures DownloadAll(p) == [Download(SwitchTab(p, Html)), Download(SwitchTab(p, Css)), Download(SwitchTab(p, Js))]
  {
  }

  /** What is copied is what is downloaded. */
  lemma CopyMatchesDownload(p: Playground)
    ensures Copy(p) == Download(p).content
  {
  }
}
