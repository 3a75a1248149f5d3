/**
  The search index: one `SearchItem` record per documentation topic, and the
  constant list the search palette filters.
*/
module SearchData {

  /** One topic of the search index; `id` is the section anchor it navigates to. */
  datatype SearchItem = SearchItem(
    id: string,
    title: string,
    content: string,
    section: string,
    keywords: seq<string>)

  /** The twelve topics, in the order the palette lists them. */
  const SearchItems: seq<SearchItem> := [
    SearchItem(
      "introduction",
      "Introduction",
      "The Virtual OS project reimagines the desktop environment by eliminating physical peripherals. Leveraging Computer Vision (CV) and Generative AI, it transforms the user's hand into a universal controller. Precision Tracking, Multimodal AI, Physical Bridge, Immersive Suite.",
      "General",
      ["vision", "ai", "gesture", "controller", "peripherals"]),
    SearchItem(
      "how-it-works",
      "How It Works",
      "The Vision Pipeline processes frames at 60 FPS. Input Acquisition (Webcam RGB), Palm Detection (SSD), Landmark Regression (MediaPipe 21 keypoints), Temporal Smoothing (EMA filter), Gesture Engine (Vector distances), Action Dispatch (UI rendering).",
      "General",
      ["pipeline", "fps", "mediapipe", "ssd", "tracking", "smoothing"]),
    SearchItem(
      "tech-stack",
      "Tech Stack",
      "Python 3.12 (Core), OpenCV (Vision), MediaPipe (Hand Tracking), YOLOv8 (Object Detection), livekit (Voice AI), pySerial (Arduino Communication), NumPy (Matrix Operations), Arduino Uno R3 (Hardware Control).",
      "General",
      ["technologies", "frameworks", "libraries", "python", "cpp", "arduino"]),
    SearchItem(
      "apps-gallery",
      "Applications",
      "Home Dashboard (CPU stats), Virtual Paint (Air-drawing), Calculator (Gesture input), Matrix Calculator (Inverse, Determinant), Graphing Calculator (Function plotting), Quiz Master (Educational tool).",
      "Features",
      ["tools", "utilities", "programs", "software", "paint", "math"]),
    SearchItem(
      "games",
      "Games",
      "Fruit Slicer: Procedural assets, collision detection, difficulty scaling. Space Defender: Rapid gesture tracking, combo system, enemy variety. Power-ups: Frenzy, Freeze, Shield, Giant. Physics-based arcade games.",
      "Features",
      ["entertainment", "play", "arcade", "physics", "collision"]),
    SearchItem(
      "ai-assistant",
      "AI Assistant",
      "Multimodal voice assistant with states: IDLE, LISTENING (Red Visualizer), THINKING (Orbiting Particles), SPEAKING (Waveform). Features: Kinetic Scrolling, Quick Chips, Real-time text streaming.",
      "Features",
      ["voice", "llm", "gpt", "gemini", "chat", "commands"]),
    SearchItem(
      "hardware-overview",
      "Hardware Architecture",
      "Hybrid Digital/Physical architecture. Arduino Uno R3 communicating via UART Serial (115200 baud). Components: Relay Module (220V AC), Servo Motors (Pan/Tilt 0-180), Laser Diode, Breadboard.",
      "Implementation",
      ["electronics", "circuit", "sensors", "actuators", "physical", "iot"]),
    SearchItem(
      "serial-protocol",
      "Serial Protocol",
      "Servo Command: S <x> <y> <laser> (e.g., S 90 45 1). Digital Command: D <pin> <state> (e.g., D 13 1). Firmware written in C++ (Arduino Sketch).",
      "Implementation",
      ["uart", "baud", "communication", "firmware", "commands"]),
    SearchItem(
      "installation",
      "Installation & Usage",
      "Prerequisites: Python 3.10+, Webcam, Arduino. Setup: Clone repo, pip install requirements.txt, Upload sketch, Run main.py. Gestures: Move Cursor (Index), Click (Pinch Index+Thumb), Drag (Pinch Middle+Thumb), Back/Home (Thumb Closed).",
      "Guide",
      ["setup", "start", "requirements", "controls", "gestures"]),
    SearchItem(
      "project-structure",
      "Project Structure",
      "Modular architecture. main.py (Entry), utils.py (GestureManager), apps/ (Modules for Paint, Calculator, Games). Each app is a class with a standard run() method.",
      "Guide",
      ["files", "folders", "code", "architecture", "modules"]),
    SearchItem(
      "challenges",
      "Challenges & Solutions",
      "Ghost Clicks: Solved with Schmitt Trigger & Debounce. Cursor Jitter: Solved with EMA Smoothing. Serial Bottlenecks: Solved with State Change Detection & async commands. UI Limitations: Solved with custom drawing library.",
      "Reference",
      ["problems", "fixes", "optimization", "performance", "bugs"]),
    SearchItem(
      "roadmap",
      "Future Roadmap",
      "Planned: Stereo Depth (3D gestures), IoT Mesh Network (ESP32 MQTT), Custom Macro Recording. Exploring: More AI Integrations.",
      "Reference",
      ["future", "upcoming", "features", "plans", "goals"])
  ]
}
